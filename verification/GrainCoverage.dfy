/** Overlap-add coverage of a burst of grains: which samples only one grain covers, the
    weight curve, and what dropping a grain without such samples changes. The window is
    any non-negative function that is zero outside its support. */
module GrainCoverage {

  datatype Grain = Grain(center: int, half: int)

  datatype Burst = Burst(block: nat, grains: seq<Grain>)

  type Window = (int, int) -> real

  const KEPT := 0.0001
  const THRESHOLD := 0.001
  const CEILING := 1000000000.0

  ghost predicate IsWindow(w: Window) {
    forall off, half :: w(off, half) >= 0.0 && (half <= 0 || off < -half || off > half ==> w(off, half) == 0.0)
  }

  function Weight(w: Window, g: Grain, n: int): real {
    w(n - g.center, g.half)
  }

  function Min(a: int, b: int): int {
    if a < b then a else b
  }

  function Max(a: int, b: int): int {
    if a < b then b else a
  }

  /** The first sample any grain reaches. */
  function Low(grains: seq<Grain>): int
    requires grains != []
  {
    var n := |grains| - 1;
    var own := grains[n].center - grains[n].half;
    if n == 0 then own else Min(Low(grains[..n]), own)
  }

  /** The last sample any grain reaches. */
  function High(grains: seq<Grain>): int
    requires grains != []
  {
    var n := |grains| - 1;
    var own := grains[n].center + grains[n].half;
    if n == 0 then own else Max(High(grains[..n]), own)
  }

  lemma {:induction false} Extent(grains: seq<Grain>, i: nat)
    requires i < |grains|
    ensures Low(grains) <= grains[i].center - grains[i].half && grains[i].center + grains[i].half <= High(grains)
    decreases |grains|
  {
    if i < |grains| - 1 {
      Extent(grains[..|grains| - 1], i);
    }
  }

  /** Some grain other than number skip covers the sample. */
  ghost predicate CoveredBy(w: Window, grains: seq<Grain>, skip: int, n: int) {
    exists i :: 0 <= i < |grains| && i != skip && Weight(w, grains[i], n) > THRESHOLD
  }

  /** Only grain g covers the sample. */
  ghost predicate UniqueAt(w: Window, grains: seq<Grain>, g: nat, n: int)
    requires g < |grains|
  {
    Weight(w, grains[g], n) > THRESHOLD && !CoveredBy(w, grains, g, n)
  }

  /** How many samples from lo up to, not including, end are unique to grain g. */
  ghost function UniqueCount(w: Window, grains: seq<Grain>, g: nat, lo: int, end: int): nat
    requires g < |grains|
    decreases end - lo
  {
    if end <= lo then 0
    else UniqueCount(w, grains, g, lo, end - 1) + if UniqueAt(w, grains, g, end - 1) then 1 else 0
  }

  /** The unique samples of grain g in the burst. */
  ghost function Unique(w: Window, grains: seq<Grain>, g: nat): nat
    requires g < |grains|
  {
    UniqueCount(w, grains, g, Low(grains), High(grains) + 1)
  }

  /** The grains whose retained weight at n exceeds the threshold, other than g. */
  method HasOthers(w: Window, grains: seq<Grain>, g: nat, n: int) returns (others: bool)
    requires g < |grains|
    ensures others == CoveredBy(w, grains, g, n)
  {
    others := false;
    for i := 0 to |grains|
      invariant others == exists j :: 0 <= j < i && j != g && Weight(w, grains[j], n) > THRESHOLD
    {
      var ww := Weight(w, grains[i], n);
      if ww > KEPT && i != g && ww > THRESHOLD {
        others := true;
      }
    }
  }

  /** The counting loop, which looks only inside the grain's own support. */
  method CountUnique(w: Window, grains: seq<Grain>, g: nat) returns (uniq: nat)
    requires IsWindow(w) && g < |grains|
    ensures uniq == Unique(w, grains, g)
  {
    var c, h := grains[g].center, grains[g].half;
    var lo, hi := Low(grains), High(grains);
    uniq := 0;
    var n := lo;
    Extent(grains, g);
    if hi < lo {
      return;
    }
    while n <= hi
      invariant lo <= n <= hi + 1
      invariant uniq == UniqueCount(w, grains, g, lo, n)
    {
      if c - h <= n <= c + h {
        var own := Weight(w, grains[g], n);
        if own > 0.0 {
          var others := HasOthers(w, grains, g, n);
          if !others && own > THRESHOLD {
            uniq := uniq + 1;
          }
        }
      }
      n := n + 1;
    }
  }

  /** The samples from lo up to, not including, end that are unique to grain g. */
  ghost function Samples(w: Window, grains: seq<Grain>, g: nat, lo: int, end: int): set<int>
    requires g < |grains|
  {
    set n | lo <= n < end && UniqueAt(w, grains, g, n)
  }

  lemma InsideBurst(w: Window, grains: seq<Grain>, g: nat)
    requires IsWindow(w) && g < |grains|
    ensures forall n :: UniqueAt(w, grains, g, n) ==> Low(grains) <= n <= High(grains)
  {
    Extent(grains, g);
    forall n | UniqueAt(w, grains, g, n) ensures Low(grains) <= n <= High(grains) {
      assert w(n - grains[g].center, grains[g].half) > 0.0;
    }
  }

  lemma {:induction false} CountIsNumber(w: Window, grains: seq<Grain>, g: nat, lo: int, end: int)
    requires g < |grains|
    ensures UniqueCount(w, grains, g, lo, end) == |Samples(w, grains, g, lo, end)|
    decreases end - lo
  {
    hide UniqueAt;
    if end > lo {
      CountIsNumber(w, grains, g, lo, end - 1);
      var before := Samples(w, grains, g, lo, end - 1);
      assert Samples(w, grains, g, lo, end)
          == if UniqueAt(w, grains, g, end - 1) then before + {end - 1} else before;
    } else {
      assert Samples(w, grains, g, lo, end) == {};
    }
  }

  /** The count is the number of such samples, and none lies outside the burst. */
  lemma UniqueIsNumber(w: Window, grains: seq<Grain>, g: nat)
    requires IsWindow(w) && g < |grains|
    ensures Unique(w, grains, g) == |Samples(w, grains, g, Low(grains), High(grains) + 1)|
    ensures forall n :: UniqueAt(w, grains, g, n) ==> Low(grains) <= n <= High(grains)
  {
    hide UniqueAt;
    CountIsNumber(w, grains, g, Low(grains), High(grains) + 1);
    InsideBurst(w, grains, g);
  }

  // ---------------------------------------------------------------------
  // Dropping a grain
  // ---------------------------------------------------------------------

  lemma {:induction false} NoneCounted(w: Window, grains: seq<Grain>, g: nat, lo: int, end: int)
    requires g < |grains|
    ensures UniqueCount(w, grains, g, lo, end) == 0 <==> forall n :: lo <= n < end ==> !UniqueAt(w, grains, g, n)
    decreases end - lo
  {
    if end > lo {
      NoneCounted(w, grains, g, lo, end - 1);
    }
  }

  /** Dropping a grain leaves the set of covered samples unchanged exactly when it has no
      unique samples: for any burst and any grain of it. */
  lemma DropKeepsCoverageIff(w: Window, grains: seq<Grain>, g: nat)
    requires IsWindow(w) && g < |grains|
    ensures Unique(w, grains, g) == 0
       <==> forall n :: CoveredBy(w, grains, -1, n) <==> CoveredBy(w, grains, g, n)
  {
    var lo, end := Low(grains), High(grains) + 1;
    NoneCounted(w, grains, g, lo, end);
    Extent(grains, g);
    forall n ensures UniqueAt(w, grains, g, n) ==> lo <= n < end {
      assert UniqueAt(w, grains, g, n) ==> w(n - grains[g].center, grains[g].half) > 0.0;
    }
    forall n
      ensures UniqueAt(w, grains, g, n) <==> (CoveredBy(w, grains, -1, n) && !CoveredBy(w, grains, g, n))
      ensures CoveredBy(w, grains, g, n) ==> CoveredBy(w, grains, -1, n)
    {
      CoverWithout(w, grains, g, n);
    }
  }

  lemma CoverWithout(w: Window, grains: seq<Grain>, g: nat, n: int)
    requires g < |grains|
    ensures CoveredBy(w, grains, -1, n) <==> CoveredBy(w, grains, g, n) || Weight(w, grains[g], n) > THRESHOLD
  {
    if Weight(w, grains[g], n) > THRESHOLD {
      assert CoveredBy(w, grains, -1, n);
    }
  }

  /** The total weight at n of the grains that are kept. */
  function Total(w: Window, grains: seq<Grain>, skip: int, n: int): real {
    if grains == [] then 0.0
    else
      var i := |grains| - 1;
      Total(w, grains[..i], skip, n) + if i == skip then 0.0 else Weight(w, grains[i], n)
  }

  /** `weight_min`. */
  function MinTotal(w: Window, grains: seq<Grain>, skip: int, lo: int, end: int): (m: real)
    ensures m <= CEILING
    decreases end - lo
  {
    if end <= lo then CEILING
    else
      var before, here := MinTotal(w, grains, skip, lo, end - 1), Total(w, grains, skip, end - 1);
      if here < before then here else before
  }

  method WeightMin(w: Window, grains: seq<Grain>, skip: int, lo: int, hi: int) returns (mn: real)
    ensures mn == MinTotal(w, grains, skip, lo, hi + 1)
  {
    mn := CEILING;
    var n := lo;
    if hi < lo {
      return;
    }
    while n <= hi
      invariant lo <= n <= hi + 1
      invariant mn == MinTotal(w, grains, skip, lo, n)
    {
      var s := 0.0;
      for i := 0 to |grains|
        invariant s == Total(w, grains[..i], skip, n)
      {
        assert grains[..i + 1][..i] == grains[..i];
        if i != skip {
          s := s + Weight(w, grains[i], n);
        }
      }
      assert grains[..|grains|] == grains;
      if s < mn {
        mn := s;
      }
      n := n + 1;
    }
  }

  /** The total without a grain lacks exactly that grain's weight. */
  lemma {:induction false} TotalWithout(w: Window, grains: seq<Grain>, g: nat, n: int)
    requires g < |grains|
    ensures Total(w, grains, -1, n) == Total(w, grains, g, n) + Weight(w, grains[g], n)
    decreases |grains|
  {
    var i := |grains| - 1;
    if g < i {
      TotalWithout(w, grains[..i], g, n);
    } else {
      AllOfThem(w, grains[..i], i, n);
    }
  }

  lemma {:induction false} AllOfThem(w: Window, grains: seq<Grain>, skip: nat, n: int)
    requires skip >= |grains|
    ensures Total(w, grains, -1, n) == Total(w, grains, skip, n)
    decreases |grains|
  {
    if grains != [] {
      AllOfThem(w, grains[..|grains| - 1], skip, n);
    }
  }

  ghost predicate Attained(w: Window, grains: seq<Grain>, skip: int, lo: int, end: int, m: real) {
    exists n :: lo <= n < end && Total(w, grains, skip, n) == m
  }

  /** The minimum is attained, unless no total is below the ceiling, and no total lies below it. */
  lemma {:induction false} MinTotalIsLeast(w: Window, grains: seq<Grain>, skip: int, lo: int, end: int)
    ensures var m := MinTotal(w, grains, skip, lo, end);
            && (forall n :: lo <= n < end ==> m <= Total(w, grains, skip, n))
            && (m == 1000000000.0 || Attained(w, grains, skip, lo, end, m))
    decreases end - lo
  {
    hide Total;
    if end > lo {
      MinTotalIsLeast(w, grains, skip, lo, end - 1);
      var before, here := MinTotal(w, grains, skip, lo, end - 1), Total(w, grains, skip, end - 1);
      if here < before {
        assert Attained(w, grains, skip, lo, end, here);
      } else if before != 1000000000.0 {
        assert Attained(w, grains, skip, lo, end, before);
      }
    }
  }

  lemma {:induction false} LessWithout(w: Window, grains: seq<Grain>, g: int, n: int)
    requires IsWindow(w)
    ensures Total(w, grains, g, n) <= Total(w, grains, -1, n)
    decreases |grains|
  {
    if grains != [] {
      LessWithout(w, grains[..|grains| - 1], g, n);
    }
  }

  /** The least total weight never rises when a grain is dropped. */
  lemma {:induction false} DropLowersMinimum(w: Window, grains: seq<Grain>, g: int, lo: int, end: int)
    requires IsWindow(w)
    ensures MinTotal(w, grains, g, lo, end) <= MinTotal(w, grains, -1, lo, end)
    decreases end - lo
  {
    if end > lo {
      DropLowersMinimum(w, grains, g, lo, end - 1);
      LessWithout(w, grains, g, end - 1);
    }
  }

  // ---------------------------------------------------------------------
  // Sums over the burst
  // ---------------------------------------------------------------------

  /** The unique samples of the first k grains together. */
  ghost function UniqueTotal(w: Window, grains: seq<Grain>, k: nat, lo: int, end: int): nat
    requires k <= |grains|
  {
    if k == 0 then 0 else UniqueTotal(w, grains, k - 1, lo, end) + UniqueCount(w, grains, k - 1, lo, end)
  }

  /** How many of the first k grains have n to themselves. */
  ghost function Owners(w: Window, grains: seq<Grain>, k: nat, n: int): nat
    requires k <= |grains|
  {
    if k == 0 then 0 else Owners(w, grains, k - 1, n) + if UniqueAt(w, grains, k - 1, n) then 1 else 0
  }

  /** A sample is unique to at most one grain. */
  lemma {:induction false} OneOwner(w: Window, grains: seq<Grain>, k: nat, n: int)
    requires k <= |grains|
    ensures Owners(w, grains, k, n) <= 1
    ensures Owners(w, grains, k, n) == 1 ==> exists g :: 0 <= g < k && UniqueAt(w, grains, g, n)
    decreases k
  {
    if k > 0 {
      OneOwner(w, grains, k - 1, n);
    }
  }

  lemma {:induction false} OneMoreSample(w: Window, grains: seq<Grain>, k: nat, lo: int, end: int)
    requires k <= |grains| && lo < end
    ensures UniqueTotal(w, grains, k, lo, end) == UniqueTotal(w, grains, k, lo, end - 1) + Owners(w, grains, k, end - 1)
    decreases k
  {
    if k > 0 {
      OneMoreSample(w, grains, k - 1, lo, end);
    }
  }

  lemma {:induction false} NoSamples(w: Window, grains: seq<Grain>, k: nat, lo: int)
    requires k <= |grains|
    ensures UniqueTotal(w, grains, k, lo, lo) == 0
    decreases k
  {
    if k > 0 {
      NoSamples(w, grains, k - 1, lo);
    }
  }

  /** Unique samples are counted for one grain only, so together they cannot exceed the span. */
  lemma {:induction false} UniqueFitsSpan(w: Window, grains: seq<Grain>, lo: int, end: int)
    requires lo <= end
    ensures UniqueTotal(w, grains, |grains|, lo, end) <= end - lo
    decreases end - lo
  {
    if lo == end {
      NoSamples(w, grains, |grains|, lo);
    } else {
      UniqueFitsSpan(w, grains, lo, end - 1);
      OneMoreSample(w, grains, |grains|, lo, end);
      OneOwner(w, grains, |grains|, end - 1);
    }
  }

  /** The weight a grain keeps at n in the per-sample lists. */
  function Retained(w: Window, g: Grain, n: int): real {
    if Weight(w, g, n) > KEPT then Weight(w, g, n) else 0.0
  }

  /** One point of the overlap-add curve. */
  function Curve(w: Window, grains: seq<Grain>, n: int): real {
    if grains == [] then 0.0
    else Curve(w, grains[..|grains| - 1], n) + Retained(w, grains[|grains| - 1], n)
  }

  /** The curve lacks only weights of at most a ten-thousandth a grain, and is zero exactly where no
      grain weighs more. */
  lemma {:induction false} CurveNearTotal(w: Window, grains: seq<Grain>, n: int)
    requires IsWindow(w)
    ensures 0.0 <= Curve(w, grains, n) <= Total(w, grains, -1, n)
    ensures Total(w, grains, -1, n) - |grains| as real / 10000.0 <= Curve(w, grains, n)
    ensures Curve(w, grains, n) == 0.0 <==> forall i :: 0 <= i < |grains| ==> Weight(w, grains[i], n) <= 1.0 / 10000.0
    decreases |grains|
  {
    if grains != [] {
      var i := |grains| - 1;
      CurveNearTotal(w, grains[..i], n);
      assert Weight(w, grains[i], n) >= 0.0;
      assert grains == grains[..i] + [grains[i]];
    }
  }

  function CurveSum(w: Window, grains: seq<Grain>, lo: int, end: int): real
    decreases end - lo
  {
    if end <= lo then 0.0 else CurveSum(w, grains, lo, end - 1) + Curve(w, grains, end - 1)
  }

  function Mass(w: Window, g: Grain, lo: int, end: int): real
    decreases end - lo
  {
    if end <= lo then 0.0 else Mass(w, g, lo, end - 1) + Retained(w, g, end - 1)
  }

  function MassSum(w: Window, grains: seq<Grain>, lo: int, end: int): real {
    if grains == [] then 0.0
    else MassSum(w, grains[..|grains| - 1], lo, end) + Mass(w, grains[|grains| - 1], lo, end)
  }

  lemma {:induction false} MassNextSample(w: Window, grains: seq<Grain>, lo: int, end: int)
    requires lo < end
    ensures MassSum(w, grains, lo, end) == MassSum(w, grains, lo, end - 1) + Curve(w, grains, end - 1)
    decreases |grains|
  {
    if grains != [] {
      MassNextSample(w, grains[..|grains| - 1], lo, end);
    }
  }

  lemma {:induction false} MassOfNothing(w: Window, grains: seq<Grain>, lo: int, end: int)
    requires end <= lo
    ensures MassSum(w, grains, lo, end) == 0.0
    decreases |grains|
  {
    if grains != [] {
      MassOfNothing(w, grains[..|grains| - 1], lo, end);
    }
  }

  /** The curve summed over the samples is the grains' masses summed over the grains. */
  lemma {:induction false} CurveIsMass(w: Window, grains: seq<Grain>, lo: int, end: int)
    ensures CurveSum(w, grains, lo, end) == MassSum(w, grains, lo, end)
    decreases end - lo
  {
    if end <= lo {
      MassOfNothing(w, grains, lo, end);
    } else {
      CurveIsMass(w, grains, lo, end - 1);
      MassNextSample(w, grains, lo, end);
    }
  }

  // ---------------------------------------------------------------------
  // The decision to drop the middle grain
  // ---------------------------------------------------------------------

  datatype Row = Row(block: nat, grain: nat, unique: nat)

  datatype Found = Absent | Count(unique: nat)

  ghost function RowsOf(w: Window, b: Burst, k: nat): seq<Row>
    requires k <= |b.grains|
  {
    if k == 0 then [] else RowsOf(w, b, k - 1) + [Row(b.block, k - 1, Unique(w, b.grains, k - 1))]
  }

  ghost function AllRows(w: Window, bursts: seq<Burst>): seq<Row> {
    if bursts == [] then [] else RowsOf(w, bursts[0], |bursts[0].grains|) + AllRows(w, bursts[1..])
  }

  /** The first row for that block's middle grain. */
  function Lookup(rows: seq<Row>, block: nat): Found {
    if rows == [] then Absent
    else if rows[0].block == block && rows[0].grain == 1 then Count(rows[0].unique)
    else Lookup(rows[1..], block)
  }

  lemma {:induction false} LookupConcat(a: seq<Row>, b: seq<Row>, block: nat)
    ensures Lookup(a + b, block) == if Lookup(a, block) == Absent then Lookup(b, block) else Lookup(a, block)
    decreases |a|
  {
    if a == [] {
      assert a + b == b;
    } else {
      assert (a + b)[1..] == a[1..] + b;
      LookupConcat(a[1..], b, block);
    }
  }

  lemma {:induction false} LookupInBurst(w: Window, b: Burst, k: nat, block: nat)
    requires k <= |b.grains|
    ensures Lookup(RowsOf(w, b, k), block)
         == if b.block == block && k >= 2 then Count(Unique(w, b.grains, 1)) else Absent
    decreases k
  {
    if k > 0 {
      LookupInBurst(w, b, k - 1, block);
      LookupConcat(RowsOf(w, b, k - 1), [Row(b.block, k - 1, Unique(w, b.grains, k - 1))], block);
    }
  }

  /** The decision for a block rests on the first burst of that block with a middle grain. */
  lemma {:induction false} DecisionUsesFirst(w: Window, bursts: seq<Burst>, i: nat, block: nat)
    requires i < |bursts| && bursts[i].block == block && |bursts[i].grains| >= 2
    requires forall j :: 0 <= j < i ==> bursts[j].block != block || |bursts[j].grains| < 2
    ensures Lookup(AllRows(w, bursts), block) == Count(Unique(w, bursts[i].grains, 1))
    decreases i
  {
    LookupInBurst(w, bursts[0], |bursts[0].grains|, block);
    LookupConcat(RowsOf(w, bursts[0], |bursts[0].grains|), AllRows(w, bursts[1..]), block);
    if i > 0 {
      DecisionUsesFirst(w, bursts[1..], i - 1, block);
    }
  }

  /** So a burst that shares its block with an earlier one may lose a grain it needs: its middle
      grain is dropped on the other's count exactly when that count is zero. */
  lemma DropOfLaterBurst(w: Window, bursts: seq<Burst>, i: nat, k: nat)
    requires IsWindow(w) && i < k < |bursts| && bursts[i].block == bursts[k].block
    requires |bursts[i].grains| >= 2 && |bursts[k].grains| >= 3
    requires forall j :: 0 <= j < i ==> bursts[j].block != bursts[i].block || |bursts[j].grains| < 2
    ensures var dropped := Lookup(AllRows(w, bursts), bursts[k].block) == Count(0);
            var keeps := forall n :: CoveredBy(w, bursts[k].grains, -1, n) <==> CoveredBy(w, bursts[k].grains, 1, n);
            (dropped ==> keeps) <==> (Unique(w, bursts[i].grains, 1) == 0 ==> Unique(w, bursts[k].grains, 1) == 0)
  {
    hide Lookup, AllRows, Unique, CoveredBy;
    DecisionUsesFirst(w, bursts, i, bursts[i].block);
    DropKeepsCoverageIff(w, bursts[k].grains, 1);
  }

  function Box(): (w: Window)
    ensures IsWindow(w)
  {
    (off: int, half: int) => if 0 < half && -half <= off <= half then 1.0 else 0.0
  }

  const TOGETHER := [Grain(0, 10), Grain(0, 10), Grain(0, 10)]
  const APART := [Grain(0, 10), Grain(100, 10), Grain(200, 10)]

  lemma TogetherSharesAll()
    ensures Unique(Box(), TOGETHER, 1) == 0
  {
    hide Low, High, UniqueCount;
    forall n ensures !UniqueAt(Box(), TOGETHER, 1, n) {
      if Weight(Box(), TOGETHER[1], n) > THRESHOLD {
        assert Weight(Box(), TOGETHER[0], n) > THRESHOLD;
      }
    }
    NoneCounted(Box(), TOGETHER, 1, Low(TOGETHER), High(TOGETHER) + 1);
  }

  lemma ApartNeedsMiddle()
    ensures CoveredBy(Box(), APART, -1, 100) && !CoveredBy(Box(), APART, 1, 100)
  {
    assert Weight(Box(), APART[1], 100) == 1.0;
  }

  /** Two bursts of one block: the second loses a grain that alone covers sample 100. */
  lemma SharedBlockLosesCoverage()
    ensures Lookup(AllRows(Box(), [Burst(7, TOGETHER), Burst(7, APART)]), 7) == Count(0)
    ensures CoveredBy(Box(), APART, -1, 100) && !CoveredBy(Box(), APART, 1, 100)
  {
    hide Lookup, AllRows, Unique, CoveredBy, Box;
    DecisionUsesFirst(Box(), [Burst(7, TOGETHER), Burst(7, APART)], 0, 7);
    TogetherSharesAll();
    ApartNeedsMiddle();
  }
}
