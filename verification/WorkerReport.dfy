/** The report over the pitch worker's call records: one pass that sums calls, times and
    hops, in total and by the number of hops a call completed. */
module WorkerReport {

  datatype Record = Record(startUs: nat, durationUs: nat, cycles: nat, hops: nat)

  const CAPACITY := 512
  const CLASSES := 5

  predicate InWindow(r: Record, windowStart: nat, windowEnd: nat) {
    windowStart <= r.startUs < windowEnd
  }

  /** The records the report is about, in order. */
  function Selected(records: seq<Record>, windowStart: nat, windowEnd: nat): seq<Record> {
    if records == [] then []
    else
      var n := |records| - 1;
      Selected(records[..n], windowStart, windowEnd)
      + if InWindow(records[n], windowStart, windowEnd) then [records[n]] else []
  }

  /** Calls of more than four hops count as four. */
  function HopClass(r: Record): (c: nat)
    ensures c < CLASSES
  {
    if r.hops < 4 then r.hops else 4
  }

  function Last(rs: seq<Record>): Record
    requires rs != []
  {
    rs[|rs| - 1]
  }

  function Front(rs: seq<Record>): (f: seq<Record>)
    requires rs != []
    ensures |f| == |rs| - 1
  {
    rs[..|rs| - 1]
  }

  function TotalUs(rs: seq<Record>): nat {
    if rs == [] then 0 else TotalUs(Front(rs)) + Last(rs).durationUs
  }

  function TotalCycles(rs: seq<Record>): nat {
    if rs == [] then 0 else TotalCycles(Front(rs)) + Last(rs).cycles
  }

  function TotalHops(rs: seq<Record>): nat {
    if rs == [] then 0 else TotalHops(Front(rs)) + HopClass(Last(rs))
  }

  function ClassCalls(rs: seq<Record>, c: nat): nat {
    if rs == [] then 0 else ClassCalls(Front(rs), c) + if HopClass(Last(rs)) == c then 1 else 0
  }

  function ClassUs(rs: seq<Record>, c: nat): nat {
    if rs == [] then 0 else ClassUs(Front(rs), c) + if HopClass(Last(rs)) == c then Last(rs).durationUs else 0
  }

  /** The cost per hop of the calls that completed any, in order. */
  function HopCosts(rs: seq<Record>): seq<nat> {
    if rs == [] then []
    else HopCosts(Front(rs)) + if HopClass(Last(rs)) > 0 then [Last(rs).durationUs / HopClass(Last(rs))] else []
  }

  function Durations(rs: seq<Record>): seq<nat> {
    if rs == [] then [] else Durations(Front(rs)) + [Last(rs).durationUs]
  }

  function Max(a: nat, b: nat): nat {
    if a < b then b else a
  }

  datatype Summary = Summary(
    callUs: seq<nat>, hopUs: seq<nat>, callTotalUs: nat, callTotalCycles: nat, completedHops: nat,
    callMaxUs: nat, hopMaxUs: nat, classCalls: seq<nat>, classTotalUs: seq<nat>)

  ghost predicate IsMaximum(m: nat, s: seq<nat>) {
    (forall i :: 0 <= i < |s| ==> s[i] <= m) && (s == [] ==> m == 0) && (s != [] ==> m in s)
  }

  ghost predicate Summarises(t: Summary, rs: seq<Record>) {
    && t.callUs == Durations(rs) && t.hopUs == HopCosts(rs)
    && t.callTotalUs == TotalUs(rs) && t.callTotalCycles == TotalCycles(rs) && t.completedHops == TotalHops(rs)
    && IsMaximum(t.callMaxUs, t.callUs) && IsMaximum(t.hopMaxUs, t.hopUs)
    && |t.classCalls| == |t.classTotalUs| == CLASSES
    && (forall c: nat :: c < CLASSES ==> t.classCalls[c] == ClassCalls(rs, c) && t.classTotalUs[c] == ClassUs(rs, c))
  }

  lemma RaiseMaximum(m: nat, s: seq<nat>, x: nat)
    requires IsMaximum(m, s)
    ensures IsMaximum(Max(m, x), s + [x])
  {
    if x <= m && s != [] {
      var i :| 0 <= i < |s| && s[i] == m;
      assert (s + [x])[i] == m;
    } else {
      assert (s + [x])[|s|] == x;
    }
  }

  lemma NextRecord(rs: seq<Record>, r: Record)
    ensures Front(rs + [r]) == rs && Last(rs + [r]) == r
  {
  }

  /** The report loop over the recorded calls, of which at most the capacity were stored. */
  method Report(records: seq<Record>, rawCount: nat, windowStart: nat, windowEnd: nat) returns (t: Summary)
    requires |records| == CAPACITY
    ensures var n := if rawCount < CAPACITY then rawCount else CAPACITY;
            Summarises(t, Selected(records[..n], windowStart, windowEnd))
  {
    hide Selected, Durations, HopCosts, TotalUs, TotalCycles, TotalHops, ClassCalls, ClassUs, IsMaximum;
    var recordCount := if rawCount < CAPACITY then rawCount else CAPACITY;
    t := Summary([], [], 0, 0, 0, 0, 0, [0, 0, 0, 0, 0], [0, 0, 0, 0, 0]);
    ghost var rs: seq<Record> := [];
    EmptySummary();
    NoneSelected(windowStart, windowEnd);
    assert records[..0] == [];
    for i := 0 to recordCount
      invariant rs == Selected(records[..i], windowStart, windowEnd)
      invariant Summarises(t, rs)
    {
      var record := records[i];
      assert records[..i + 1] == records[..i] + [record];
      NextSelected(records[..i], record, windowStart, windowEnd);
      if windowStart <= record.startUs < windowEnd {
        t := CountCall(t, record, rs);
        rs := rs + [record];
      }
    }
  }

  lemma NextSelected(records: seq<Record>, r: Record, windowStart: nat, windowEnd: nat)
    ensures Selected(records + [r], windowStart, windowEnd)
         == Selected(records, windowStart, windowEnd) + if InWindow(r, windowStart, windowEnd) then [r] else []
  {
    assert (records + [r])[..|records|] == records;
  }

  lemma NoneSelected(windowStart: nat, windowEnd: nat)
    ensures Selected([], windowStart, windowEnd) == []
  {
  }

  lemma EmptySummary()
    ensures Summarises(Summary([], [], 0, 0, 0, 0, 0, [0, 0, 0, 0, 0], [0, 0, 0, 0, 0]), [])
  {
  }

  /** The loop's body for a record inside the window. */
  method CountCall(t: Summary, record: Record, ghost rs: seq<Record>) returns (u: Summary)
    requires Summarises(t, rs)
    ensures Summarises(u, rs + [record])
  {
    hide IsMaximum;
    NextRecord(rs, record);
    var hops := HopClass(record);
    u := t.(callUs := t.callUs + [record.durationUs],
            callTotalUs := t.callTotalUs + record.durationUs,
            callTotalCycles := t.callTotalCycles + record.cycles,
            callMaxUs := Max(t.callMaxUs, record.durationUs),
            classCalls := t.classCalls[hops := t.classCalls[hops] + 1],
            classTotalUs := t.classTotalUs[hops := t.classTotalUs[hops] + record.durationUs],
            completedHops := t.completedHops + hops);
    RaiseMaximum(t.callMaxUs, t.callUs, record.durationUs);
    if hops > 0 {
      var cost := record.durationUs / hops;
      u := u.(hopUs := u.hopUs + [cost], hopMaxUs := Max(u.hopMaxUs, cost));
      RaiseMaximum(t.hopMaxUs, t.hopUs, cost);
    } else {
      assert HopCosts(rs + [record]) == HopCosts(rs) + [] == HopCosts(rs);
    }
  }

  /** Nothing is counted twice or left out: the classes add up to the totals. */
  lemma {:induction false} ClassesAddUp(rs: seq<Record>)
    ensures ClassCalls(rs, 0) + ClassCalls(rs, 1) + ClassCalls(rs, 2) + ClassCalls(rs, 3) + ClassCalls(rs, 4) == |rs|
    ensures ClassUs(rs, 0) + ClassUs(rs, 1) + ClassUs(rs, 2) + ClassUs(rs, 3) + ClassUs(rs, 4) == TotalUs(rs)
    ensures ClassCalls(rs, 1) + 2 * ClassCalls(rs, 2) + 3 * ClassCalls(rs, 3) + 4 * ClassCalls(rs, 4) == TotalHops(rs)
    ensures |HopCosts(rs)| == |rs| - ClassCalls(rs, 0) && |Durations(rs)| == |rs|
    decreases |rs|
  {
    if rs != [] {
      ClassesAddUp(Front(rs));
    }
  }

  lemma ReportConserves(t: Summary, rs: seq<Record>)
    requires Summarises(t, rs)
    ensures var c, u := t.classCalls, t.classTotalUs;
            && c[0] + c[1] + c[2] + c[3] + c[4] == |t.callUs| == |rs|
            && u[0] + u[1] + u[2] + u[3] + u[4] == t.callTotalUs
            && c[1] + 2 * c[2] + 3 * c[3] + 4 * c[4] == t.completedHops
            && |t.hopUs| == |t.callUs| - c[0]
  {
    hide ClassCalls, ClassUs, TotalUs, TotalHops, HopCosts, Durations, IsMaximum;
    ClassesAddUp(rs);
  }

  // ---------------------------------------------------------------------
  // The summary in terms of the records themselves
  // ---------------------------------------------------------------------

  function Sum(s: seq<nat>): nat {
    if s == [] then 0 else s[0] + Sum(s[1..])
  }

  lemma {:induction false} SumSnoc(s: seq<nat>, x: nat)
    ensures Sum(s + [x]) == Sum(s) + x
    decreases |s|
  {
    if s == [] {
      assert [x][1..] == [];
    } else {
      assert (s + [x])[1..] == s[1..] + [x];
      SumSnoc(s[1..], x);
    }
  }

  /** The positions of the records that pass a test, in order. */
  ghost predicate Picks(ix: seq<nat>, rs: seq<Record>, test: Record -> bool) {
    && (forall j, k :: 0 <= j < k < |ix| ==> ix[j] < ix[k])
    && (forall i: nat :: i in ix <==> i < |rs| && test(rs[i]))
  }

  /** What a field of the records at those positions is. */
  function FieldAt(rs: seq<Record>, ix: seq<nat>, field: Record -> nat): (s: seq<nat>)
    requires forall j :: 0 <= j < |ix| ==> ix[j] < |rs|
    ensures |s| == |ix|
  {
    seq(|ix|, j requires 0 <= j < |ix| => field(rs[ix[j]]))
  }

  lemma PicksNext(ix: seq<nat>, rs: seq<Record>, r: Record, test: Record -> bool)
    requires Picks(ix, rs, test)
    ensures Picks(if test(r) then ix + [|rs|] else ix, rs + [r], test)
  {
    var next := if test(r) then ix + [|rs|] else ix;
    forall i: nat ensures i in next <==> i < |rs| + 1 && test((rs + [r])[i]) {
      assert i < |rs| ==> (rs + [r])[i] == rs[i];
    }
    forall j | 0 <= j < |ix| ensures ix[j] < |rs| {
      assert ix[j] in ix;
    }
  }

  lemma FieldNext(rs: seq<Record>, r: Record, ix: seq<nat>, field: Record -> nat)
    requires forall j :: 0 <= j < |ix| ==> ix[j] < |rs|
    ensures FieldAt(rs + [r], ix, field) == FieldAt(rs, ix, field)
    ensures FieldAt(rs + [r], ix + [|rs|], field) == FieldAt(rs, ix, field) + [field(r)]
  {
  }

  lemma PickedInRange(ix: seq<nat>, rs: seq<Record>, test: Record -> bool)
    requires Picks(ix, rs, test)
    ensures forall j :: 0 <= j < |ix| ==> ix[j] < |rs|
  {
    forall j | 0 <= j < |ix| ensures ix[j] < |rs| {
      assert ix[j] in ix;
    }
  }

  /** Every record of the buffer that started inside the window, and no other, in order. */
  lemma {:induction false} SelectedPicks(records: seq<Record>, windowStart: nat, windowEnd: nat) returns (ix: seq<nat>)
    ensures Picks(ix, records, (r: Record) => windowStart <= r.startUs < windowEnd)
    ensures |ix| == |Selected(records, windowStart, windowEnd)|
    ensures forall j :: 0 <= j < |ix| ==>
              ix[j] < |records| && Selected(records, windowStart, windowEnd)[j] == records[ix[j]]
    decreases |records|
  {
    ix := [];
    if records != [] {
      var n := |records| - 1;
      ix := SelectedPicks(records[..n], windowStart, windowEnd);
      assert records == records[..n] + [records[n]];
      PicksNext(ix, records[..n], records[n], (r: Record) => windowStart <= r.startUs < windowEnd);
      PickedInRange(ix, records[..n], (r: Record) => windowStart <= r.startUs < windowEnd);
      if InWindow(records[n], windowStart, windowEnd) {
        ix := ix + [n];
      }
    }
  }

  /** A quantity of every record. */
  function Column(rs: seq<Record>, field: Record -> nat): (s: seq<nat>)
    ensures |s| == |rs|
  {
    seq(|rs|, i requires 0 <= i < |rs| => field(rs[i]))
  }

  lemma ColumnSum(rs: seq<Record>, field: Record -> nat)
    requires rs != []
    ensures Sum(Column(rs, field)) == Sum(Column(Front(rs), field)) + field(Last(rs))
    ensures Column(rs, field) == Column(Front(rs), field) + [field(Last(rs))]
  {
    assert Column(rs, field) == Column(Front(rs), field) + [field(Last(rs))];
    SumSnoc(Column(Front(rs), field), field(Last(rs)));
  }

  function DurationOf(r: Record): nat {
    r.durationUs
  }

  function CyclesOf(r: Record): nat {
    r.cycles
  }

  predicate Completed(r: Record) {
    r.hops > 0
  }

  /** The hops a call counts for. */
  function Capped(r: Record): nat {
    if r.hops > 4 then 4 else r.hops
  }

  lemma {:induction false} TotalsAreSums(rs: seq<Record>)
    ensures Durations(rs) == Column(rs, DurationOf)
    ensures TotalUs(rs) == Sum(Column(rs, DurationOf))
    ensures TotalCycles(rs) == Sum(Column(rs, CyclesOf))
    ensures TotalHops(rs) == Sum(Column(rs, Capped))
    decreases |rs|
  {
    if rs != [] {
      hide Column, Sum;
      TotalsAreSums(Front(rs));
      ColumnSum(rs, DurationOf);
      ColumnSum(rs, CyclesOf);
      ColumnSum(rs, Capped);
    }
  }

  function OfClass(c: nat): Record -> nat {
    (r: Record) => if Capped(r) == c then 1 else 0
  }

  function UsOfClass(c: nat): Record -> nat {
    (r: Record) => if Capped(r) == c then r.durationUs else 0
  }

  lemma {:induction false} ClassesAreSums(rs: seq<Record>, c: nat)
    ensures ClassCalls(rs, c) == Sum(Column(rs, OfClass(c)))
    ensures ClassUs(rs, c) == Sum(Column(rs, UsOfClass(c)))
    decreases |rs|
  {
    if rs != [] {
      hide Column, Sum;
      ClassesAreSums(Front(rs), c);
      ColumnSum(rs, OfClass(c));
      ColumnSum(rs, UsOfClass(c));
    }
  }

  function CostPerHop(r: Record): nat {
    if r.hops == 0 then 0 else r.durationUs / Capped(r)
  }

  lemma {:induction false} HopCostsPick(rs: seq<Record>) returns (ix: seq<nat>)
    ensures Picks(ix, rs, Completed) && forall j :: 0 <= j < |ix| ==> ix[j] < |rs|
    ensures HopCosts(rs) == FieldAt(rs, ix, CostPerHop)
    decreases |rs|
  {
    ix := [];
    if rs != [] {
      hide Picks, FieldAt;
      var front := HopCostsPick(Front(rs));
      assert rs == Front(rs) + [Last(rs)];
      PicksNext(front, Front(rs), Last(rs), Completed);
      FieldNext(Front(rs), Last(rs), front, CostPerHop);
      ix := if Last(rs).hops != 0 then front + [|rs| - 1] else front;
    }
  }

  /** What a summary says of the records: every duration, their sum and maximum, the cycles, the hops
      with more than four counted as four, per class its calls and their time, and the cost per hop of
      exactly the calls that completed any. */
  lemma SummaryMeans(t: Summary, rs: seq<Record>) returns (ix: seq<nat>)
    requires Summarises(t, rs)
    ensures t.callUs == Column(rs, DurationOf) && IsMaximum(t.callMaxUs, t.callUs)
    ensures t.callTotalUs == Sum(Column(rs, DurationOf))
    ensures t.callTotalCycles == Sum(Column(rs, CyclesOf))
    ensures t.completedHops == Sum(Column(rs, Capped))
    ensures |t.classCalls| == |t.classTotalUs| == 5
    ensures forall c: nat :: c < 5 ==> t.classCalls[c] == Sum(Column(rs, OfClass(c)))
    ensures forall c: nat :: c < 5 ==> t.classTotalUs[c] == Sum(Column(rs, UsOfClass(c)))
    ensures Picks(ix, rs, Completed) && forall j :: 0 <= j < |ix| ==> ix[j] < |rs|
    ensures t.hopUs == FieldAt(rs, ix, CostPerHop) && IsMaximum(t.hopMaxUs, t.hopUs)
  {
    hide Sum, Column, FieldAt, Picks, IsMaximum, ClassCalls, ClassUs, TotalUs, TotalHops, HopCosts, Durations;
    TotalsAreSums(rs);
    forall c: nat | c < 5
      ensures ClassCalls(rs, c) == Sum(Column(rs, OfClass(c))) && ClassUs(rs, c) == Sum(Column(rs, UsOfClass(c)))
    {
      ClassesAreSums(rs, c);
    }
    ix := HopCostsPick(rs);
  }
}
