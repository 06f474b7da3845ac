/** The pitch-mark search in its eight forms: the plain loop, and faster ones that reuse the
    first window's energy, split the accumulation, slide the second energy, or read from
    contiguous copies. All return the same result and the same scores. */
module PitchMarkNcc {
  import opened Arithmetic
  import opened BitMask
  import opened PitchMark

  /** s holds consecutive ring samples from a position on. */
  ghost predicate CopyOf(ring: seq<real>, start: nat, s: seq<real>)
    requires ring != []
  {
    forall i: nat :: i < |s| ==> s[i] == RingAt(ring, start + i)
  }

  lemma Sample(ring: seq<real>, start: nat, s: seq<real>, i: nat)
    requires ring != [] && CopyOf(ring, start, s) && i < |s|
    ensures s[i] == RingAt(ring, start + i)
  {
  }

  lemma NothingYet(ring: seq<real>, a: nat)
    requires ring != []
    ensures forall k: nat :: Correlation(ring, a, k, 0) == 0.0 && Energy(ring, k, 0) == 0.0
  {
  }

  /** The next sample of two windows. */
  lemma Next(ring: seq<real>, a: nat, b: nat, n: nat)
    requires ring != []
    ensures Correlation(ring, a, b, n + 1) == Fma(RingAt(ring, a + n), RingAt(ring, b + n), Correlation(ring, a, b, n))
    ensures Energy(ring, b, n + 1) == Fma(RingAt(ring, b + n), RingAt(ring, b + n), Energy(ring, b, n))
  {
  }

  // ---------------------------------------------------------------------
  // Sums of products over the ring
  // ---------------------------------------------------------------------

  method PlainProducts(ring: seq<real>, a: nat, b: nat, n: nat) returns (dot: real, aa: real, bb: real)
    requires ring != []
    ensures dot == Correlation(ring, a, b, n) && aa == Energy(ring, a, n) && bb == Energy(ring, b, n)
  {
    hide Fma, RingAt;
    dot, aa, bb := 0.0, 0.0, 0.0;
    for i := 0 to n
      invariant dot == Correlation(ring, a, b, i) && aa == Energy(ring, a, i) && bb == Energy(ring, b, i)
    {
      var x, y := RingAt(ring, a + i), RingAt(ring, b + i);
      dot, aa, bb := Fma(x, y, dot), Fma(x, x, aa), Fma(y, y, bb);
    }
  }

  method DotAndEnergy(ring: seq<real>, a: nat, b: nat, n: nat) returns (dot: real, bb: real)
    requires ring != []
    ensures dot == Correlation(ring, a, b, n) && bb == Energy(ring, b, n)
  {
    hide Fma, RingAt;
    dot, bb := 0.0, 0.0;
    for i := 0 to n
      invariant dot == Correlation(ring, a, b, i) && bb == Energy(ring, b, i)
    {
      var x, y := RingAt(ring, a + i), RingAt(ring, b + i);
      dot, bb := Fma(x, y, dot), Fma(y, y, bb);
    }
  }

  method EnergyOf(ring: seq<real>, a: nat, n: nat) returns (aa: real)
    requires ring != []
    ensures aa == Energy(ring, a, n)
  {
    hide Fma, RingAt;
    aa := 0.0;
    for i := 0 to n
      invariant aa == Energy(ring, a, i)
    {
      var x := RingAt(ring, a + i);
      aa := Fma(x, x, aa);
    }
  }

  /** 4 independent accumulators, added up before the remaining samples. */
  method DotFma4(ring: seq<real>, a: nat, b: nat, n: nat) returns (dot: real)
    requires ring != []
    ensures dot == Correlation(ring, a, b, n)
  {
    hide Mul, RingAt, Correlation, Energy;
    var d0, d1, d2, d3 := 0.0, 0.0, 0.0, 0.0;
    var i := 0;
    NothingYet(ring, a);
    while i + 3 < n
      invariant 0 <= i <= n
      invariant (d0 + d1) + (d2 + d3) == Correlation(ring, a, b, i)
    {
      d0 := Fma(RingAt(ring, a + i), RingAt(ring, b + i), d0);
      d1 := Fma(RingAt(ring, a + i + 1), RingAt(ring, b + i + 1), d1);
      d2 := Fma(RingAt(ring, a + i + 2), RingAt(ring, b + i + 2), d2);
      d3 := Fma(RingAt(ring, a + i + 3), RingAt(ring, b + i + 3), d3);
      Next(ring, a, b, i);
      Next(ring, a, b, i + 1);
      Next(ring, a, b, i + 2);
      Next(ring, a, b, i + 3);
      i := i + 4;
    }
    dot := (d0 + d1) + (d2 + d3);
    while i < n
      invariant 0 <= i <= n
      invariant dot == Correlation(ring, a, b, i)
    {
      Next(ring, a, b, i);
      dot := Fma(RingAt(ring, a + i), RingAt(ring, b + i), dot);
      i := i + 1;
    }
  }

  /** 8 independent accumulators, added up before the remaining samples. */
  method DotFma8(ring: seq<real>, a: nat, b: nat, n: nat) returns (dot: real)
    requires ring != []
    ensures dot == Correlation(ring, a, b, n)
  {
    hide Mul, RingAt, Correlation, Energy;
    var d0, d1, d2, d3, d4, d5, d6, d7 := 0.0, 0.0, 0.0, 0.0, 0.0, 0.0, 0.0, 0.0;
    var i := 0;
    NothingYet(ring, a);
    while i + 7 < n
      invariant 0 <= i <= n
      invariant ((d0 + d1) + (d2 + d3)) + ((d4 + d5) + (d6 + d7)) == Correlation(ring, a, b, i)
    {
      d0 := Fma(RingAt(ring, a + i), RingAt(ring, b + i), d0);
      d1 := Fma(RingAt(ring, a + i + 1), RingAt(ring, b + i + 1), d1);
      d2 := Fma(RingAt(ring, a + i + 2), RingAt(ring, b + i + 2), d2);
      d3 := Fma(RingAt(ring, a + i + 3), RingAt(ring, b + i + 3), d3);
      d4 := Fma(RingAt(ring, a + i + 4), RingAt(ring, b + i + 4), d4);
      d5 := Fma(RingAt(ring, a + i + 5), RingAt(ring, b + i + 5), d5);
      d6 := Fma(RingAt(ring, a + i + 6), RingAt(ring, b + i + 6), d6);
      d7 := Fma(RingAt(ring, a + i + 7), RingAt(ring, b + i + 7), d7);
      Next(ring, a, b, i);
      Next(ring, a, b, i + 1);
      Next(ring, a, b, i + 2);
      Next(ring, a, b, i + 3);
      Next(ring, a, b, i + 4);
      Next(ring, a, b, i + 5);
      Next(ring, a, b, i + 6);
      Next(ring, a, b, i + 7);
      i := i + 8;
    }
    dot := ((d0 + d1) + (d2 + d3)) + ((d4 + d5) + (d6 + d7));
    while i < n
      invariant 0 <= i <= n
      invariant dot == Correlation(ring, a, b, i)
    {
      Next(ring, a, b, i);
      dot := Fma(RingAt(ring, a + i), RingAt(ring, b + i), dot);
      i := i + 1;
    }
  }

  /** The energy of the window one sample later: one square leaves and one enters. */
  lemma {:induction false} SlideEnergy(ring: seq<real>, b: nat, n: nat)
    requires ring != []
    ensures var leaving, entering := RingAt(ring, b), RingAt(ring, b + n);
            Energy(ring, b + 1, n) == Energy(ring, b, n) - Mul(leaving, leaving) + Mul(entering, entering)
    decreases n
  {
    hide Mul, RingAt;
    if n > 0 {
      SlideEnergy(ring, b, n - 1);
      assert b + 1 + n - 1 == b + n;
    }
  }

  /** 4 candidates at once: the samples of the 4 windows pass through shared registers. */
  method Block4(ring: seq<real>, n: nat, a: seq<real>, b: seq<real>, at: nat, ghost aStart: nat, ghost bStart: nat)
    returns (dots: seq<real>, bbs: seq<real>)
    requires ring != [] && |a| == n && CopyOf(ring, aStart, a) && CopyOf(ring, bStart, b)
    requires at + n + 3 <= |b|
    ensures |dots| == |bbs| == 4
    ensures forall j: nat :: j < 4 ==>
              && dots[j] == Correlation(ring, aStart, bStart + at + j, n)
              && bbs[j] == Energy(ring, bStart + at + j, n)
  {
    hide Fma, RingAt, Correlation, Energy, CopyOf;
    ghost var x, y := aStart, bStart + at;
    var dot0, dot1, dot2, dot3 := 0.0, 0.0, 0.0, 0.0;
    var bb0, bb1, bb2, bb3 := 0.0, 0.0, 0.0, 0.0;
    var v0, v1, v2 := b[at], b[at + 1], b[at + 2];
    Sample(ring, bStart, b, at);
    Sample(ring, bStart, b, at + 1);
    Sample(ring, bStart, b, at + 2);
    var i := 0;
    NothingYet(ring, x);
    while i + 1 < n
      invariant 0 <= i <= n
      invariant v0 == RingAt(ring, y + i)
      invariant v1 == RingAt(ring, y + i + 1)
      invariant v2 == RingAt(ring, y + i + 2)
      invariant dot0 == Correlation(ring, x, y, i) && bb0 == Energy(ring, y, i)
      invariant dot1 == Correlation(ring, x, y + 1, i) && bb1 == Energy(ring, y + 1, i)
      invariant dot2 == Correlation(ring, x, y + 2, i) && bb2 == Energy(ring, y + 2, i)
      invariant dot3 == Correlation(ring, x, y + 3, i) && bb3 == Energy(ring, y + 3, i)
    {
      var a0, v3 := a[i], b[at + i + 3];
      Sample(ring, x, a, i);
      Sample(ring, bStart, b, at + i + 3);
      dot0, bb0 := Fma(a0, v0, dot0), Fma(v0, v0, bb0);
      dot1, bb1 := Fma(a0, v1, dot1), Fma(v1, v1, bb1);
      dot2, bb2 := Fma(a0, v2, dot2), Fma(v2, v2, bb2);
      dot3, bb3 := Fma(a0, v3, dot3), Fma(v3, v3, bb3);
      Next(ring, x, y, i);
      Next(ring, x, y + 1, i);
      Next(ring, x, y + 2, i);
      Next(ring, x, y + 3, i);
      var a1, v4 := a[i + 1], b[at + i + 4];
      Sample(ring, x, a, i + 1);
      Sample(ring, bStart, b, at + i + 4);
      dot0, bb0 := Fma(a1, v1, dot0), Fma(v1, v1, bb0);
      dot1, bb1 := Fma(a1, v2, dot1), Fma(v2, v2, bb1);
      dot2, bb2 := Fma(a1, v3, dot2), Fma(v3, v3, bb2);
      dot3, bb3 := Fma(a1, v4, dot3), Fma(v4, v4, bb3);
      Next(ring, x, y, i + 1);
      Next(ring, x, y + 1, i + 1);
      Next(ring, x, y + 2, i + 1);
      Next(ring, x, y + 3, i + 1);
      v0, v1, v2 := v2, v3, v4;
      i := i + 2;
    }
    while i < n
      invariant 0 <= i <= n
      invariant v0 == RingAt(ring, y + i)
      invariant v1 == RingAt(ring, y + i + 1)
      invariant v2 == RingAt(ring, y + i + 2)
      invariant dot0 == Correlation(ring, x, y, i) && bb0 == Energy(ring, y, i)
      invariant dot1 == Correlation(ring, x, y + 1, i) && bb1 == Energy(ring, y + 1, i)
      invariant dot2 == Correlation(ring, x, y + 2, i) && bb2 == Energy(ring, y + 2, i)
      invariant dot3 == Correlation(ring, x, y + 3, i) && bb3 == Energy(ring, y + 3, i)
    {
      var a0, v3 := a[i], b[at + i + 3];
      Sample(ring, x, a, i);
      Sample(ring, bStart, b, at + i + 3);
      dot0, bb0 := Fma(a0, v0, dot0), Fma(v0, v0, bb0);
      dot1, bb1 := Fma(a0, v1, dot1), Fma(v1, v1, bb1);
      dot2, bb2 := Fma(a0, v2, dot2), Fma(v2, v2, bb2);
      dot3, bb3 := Fma(a0, v3, dot3), Fma(v3, v3, bb3);
      Next(ring, x, y, i);
      Next(ring, x, y + 1, i);
      Next(ring, x, y + 2, i);
      Next(ring, x, y + 3, i);
      v0, v1, v2 := v1, v2, v3;
      i := i + 1;
    }
    dots := [dot0, dot1, dot2, dot3];
    bbs := [bb0, bb1, bb2, bb3];
  }

  /** 8 candidates at once: the samples of the 8 windows pass through shared registers. */
  method Block8(ring: seq<real>, n: nat, a: seq<real>, b: seq<real>, at: nat, ghost aStart: nat, ghost bStart: nat)
    returns (dots: seq<real>, bbs: seq<real>)
    requires ring != [] && |a| == n && CopyOf(ring, aStart, a) && CopyOf(ring, bStart, b)
    requires at + n + 7 <= |b|
    ensures |dots| == |bbs| == 8
    ensures forall j: nat :: j < 8 ==>
              && dots[j] == Correlation(ring, aStart, bStart + at + j, n)
              && bbs[j] == Energy(ring, bStart + at + j, n)
  {
    hide Fma, RingAt, Correlation, Energy, CopyOf;
    ghost var x, y := aStart, bStart + at;
    var dot0, dot1, dot2, dot3, dot4, dot5, dot6, dot7 := 0.0, 0.0, 0.0, 0.0, 0.0, 0.0, 0.0, 0.0;
    var bb0, bb1, bb2, bb3, bb4, bb5, bb6, bb7 := 0.0, 0.0, 0.0, 0.0, 0.0, 0.0, 0.0, 0.0;
    var v0, v1, v2, v3, v4, v5, v6 := b[at], b[at + 1], b[at + 2], b[at + 3], b[at + 4], b[at + 5], b[at + 6];
    Sample(ring, bStart, b, at);
    Sample(ring, bStart, b, at + 1);
    Sample(ring, bStart, b, at + 2);
    Sample(ring, bStart, b, at + 3);
    Sample(ring, bStart, b, at + 4);
    Sample(ring, bStart, b, at + 5);
    Sample(ring, bStart, b, at + 6);
    var i := 0;
    NothingYet(ring, x);
    while i + 1 < n
      invariant 0 <= i <= n
      invariant v0 == RingAt(ring, y + i)
      invariant v1 == RingAt(ring, y + i + 1)
      invariant v2 == RingAt(ring, y + i + 2)
      invariant v3 == RingAt(ring, y + i + 3)
      invariant v4 == RingAt(ring, y + i + 4)
      invariant v5 == RingAt(ring, y + i + 5)
      invariant v6 == RingAt(ring, y + i + 6)
      invariant dot0 == Correlation(ring, x, y, i) && bb0 == Energy(ring, y, i)
      invariant dot1 == Correlation(ring, x, y + 1, i) && bb1 == Energy(ring, y + 1, i)
      invariant dot2 == Correlation(ring, x, y + 2, i) && bb2 == Energy(ring, y + 2, i)
      invariant dot3 == Correlation(ring, x, y + 3, i) && bb3 == Energy(ring, y + 3, i)
      invariant dot4 == Correlation(ring, x, y + 4, i) && bb4 == Energy(ring, y + 4, i)
      invariant dot5 == Correlation(ring, x, y + 5, i) && bb5 == Energy(ring, y + 5, i)
      invariant dot6 == Correlation(ring, x, y + 6, i) && bb6 == Energy(ring, y + 6, i)
      invariant dot7 == Correlation(ring, x, y + 7, i) && bb7 == Energy(ring, y + 7, i)
    {
      var a0, v7 := a[i], b[at + i + 7];
      Sample(ring, x, a, i);
      Sample(ring, bStart, b, at + i + 7);
      dot0, bb0 := Fma(a0, v0, dot0), Fma(v0, v0, bb0);
      dot1, bb1 := Fma(a0, v1, dot1), Fma(v1, v1, bb1);
      dot2, bb2 := Fma(a0, v2, dot2), Fma(v2, v2, bb2);
      dot3, bb3 := Fma(a0, v3, dot3), Fma(v3, v3, bb3);
      dot4, bb4 := Fma(a0, v4, dot4), Fma(v4, v4, bb4);
      dot5, bb5 := Fma(a0, v5, dot5), Fma(v5, v5, bb5);
      dot6, bb6 := Fma(a0, v6, dot6), Fma(v6, v6, bb6);
      dot7, bb7 := Fma(a0, v7, dot7), Fma(v7, v7, bb7);
      Next(ring, x, y, i);
      Next(ring, x, y + 1, i);
      Next(ring, x, y + 2, i);
      Next(ring, x, y + 3, i);
      Next(ring, x, y + 4, i);
      Next(ring, x, y + 5, i);
      Next(ring, x, y + 6, i);
      Next(ring, x, y + 7, i);
      var a1, v8 := a[i + 1], b[at + i + 8];
      Sample(ring, x, a, i + 1);
      Sample(ring, bStart, b, at + i + 8);
      dot0, bb0 := Fma(a1, v1, dot0), Fma(v1, v1, bb0);
      dot1, bb1 := Fma(a1, v2, dot1), Fma(v2, v2, bb1);
      dot2, bb2 := Fma(a1, v3, dot2), Fma(v3, v3, bb2);
      dot3, bb3 := Fma(a1, v4, dot3), Fma(v4, v4, bb3);
      dot4, bb4 := Fma(a1, v5, dot4), Fma(v5, v5, bb4);
      dot5, bb5 := Fma(a1, v6, dot5), Fma(v6, v6, bb5);
      dot6, bb6 := Fma(a1, v7, dot6), Fma(v7, v7, bb6);
      dot7, bb7 := Fma(a1, v8, dot7), Fma(v8, v8, bb7);
      Next(ring, x, y, i + 1);
      Next(ring, x, y + 1, i + 1);
      Next(ring, x, y + 2, i + 1);
      Next(ring, x, y + 3, i + 1);
      Next(ring, x, y + 4, i + 1);
      Next(ring, x, y + 5, i + 1);
      Next(ring, x, y + 6, i + 1);
      Next(ring, x, y + 7, i + 1);
      v0, v1, v2, v3, v4, v5, v6 := v2, v3, v4, v5, v6, v7, v8;
      i := i + 2;
    }
    while i < n
      invariant 0 <= i <= n
      invariant v0 == RingAt(ring, y + i)
      invariant v1 == RingAt(ring, y + i + 1)
      invariant v2 == RingAt(ring, y + i + 2)
      invariant v3 == RingAt(ring, y + i + 3)
      invariant v4 == RingAt(ring, y + i + 4)
      invariant v5 == RingAt(ring, y + i + 5)
      invariant v6 == RingAt(ring, y + i + 6)
      invariant dot0 == Correlation(ring, x, y, i) && bb0 == Energy(ring, y, i)
      invariant dot1 == Correlation(ring, x, y + 1, i) && bb1 == Energy(ring, y + 1, i)
      invariant dot2 == Correlation(ring, x, y + 2, i) && bb2 == Energy(ring, y + 2, i)
      invariant dot3 == Correlation(ring, x, y + 3, i) && bb3 == Energy(ring, y + 3, i)
      invariant dot4 == Correlation(ring, x, y + 4, i) && bb4 == Energy(ring, y + 4, i)
      invariant dot5 == Correlation(ring, x, y + 5, i) && bb5 == Energy(ring, y + 5, i)
      invariant dot6 == Correlation(ring, x, y + 6, i) && bb6 == Energy(ring, y + 6, i)
      invariant dot7 == Correlation(ring, x, y + 7, i) && bb7 == Energy(ring, y + 7, i)
    {
      var a0, v7 := a[i], b[at + i + 7];
      Sample(ring, x, a, i);
      Sample(ring, bStart, b, at + i + 7);
      dot0, bb0 := Fma(a0, v0, dot0), Fma(v0, v0, bb0);
      dot1, bb1 := Fma(a0, v1, dot1), Fma(v1, v1, bb1);
      dot2, bb2 := Fma(a0, v2, dot2), Fma(v2, v2, bb2);
      dot3, bb3 := Fma(a0, v3, dot3), Fma(v3, v3, bb3);
      dot4, bb4 := Fma(a0, v4, dot4), Fma(v4, v4, bb4);
      dot5, bb5 := Fma(a0, v5, dot5), Fma(v5, v5, bb5);
      dot6, bb6 := Fma(a0, v6, dot6), Fma(v6, v6, bb6);
      dot7, bb7 := Fma(a0, v7, dot7), Fma(v7, v7, bb7);
      Next(ring, x, y, i);
      Next(ring, x, y + 1, i);
      Next(ring, x, y + 2, i);
      Next(ring, x, y + 3, i);
      Next(ring, x, y + 4, i);
      Next(ring, x, y + 5, i);
      Next(ring, x, y + 6, i);
      Next(ring, x, y + 7, i);
      v0, v1, v2, v3, v4, v5, v6 := v1, v2, v3, v4, v5, v6, v7;
      i := i + 1;
    }
    dots := [dot0, dot1, dot2, dot3, dot4, dot5, dot6, dot7];
    bbs := [bb0, bb1, bb2, bb3, bb4, bb5, bb6, bb7];
  }

  // ---------------------------------------------------------------------
  // The search
  // ---------------------------------------------------------------------

  datatype Variant =
    Reference | ReuseAa | Fma4AccDot | Fma8AccDot | Fma8SlidingBb | LinearScratch | ContiguousMulti4 | ContiguousMulti8

  /** The first k scores are in place, as far as the caller gave room, and nothing else changed. */
  ghost predicate ScoresWritten(q: Search, root: real -> real, k: nat, before: seq<real>, now: seq<real>)
    requires Admissible(q) && IsSquareRoot(root)
  {
    && |now| == |before|
    && forall j: nat :: j < |now| ==> now[j] == if j < k then Score(q, root, j) else before[j]
  }

  ghost predicate Found(q: Search, root: real -> real, r: Result, before: seq<real>, now: seq<real>)
    requires IsSquareRoot(root)
  {
    if Admissible(q)
    then r == Best(q, root, Candidates(q)) && ScoresWritten(q, root, Candidates(q), before, now)
    else r == NOTHING && now == before
  }

  /** A's window and the union of the B windows, copied to where no wrap-around is needed. */
  method FillScratch(q: Search, scratch: array<real>)
    requires Admissible(q) && Valid(q, 0) && 2 * q.window + 2 * q.radius <= scratch.Length
    modifies scratch
    ensures CopyOf(q.ring, AStart(q), scratch[..q.window])
    ensures CopyOf(q.ring, BStart(q, 0), scratch[q.window..2 * q.window + 2 * q.radius])
  {
    hide RingAt;
    for i := 0 to q.window
      invariant forall j: nat :: j < i ==> scratch[j] == RingAt(q.ring, AStart(q) + j)
    {
      scratch[i] := RingAt(q.ring, AStart(q) + i);
    }
    for i := 0 to q.window + 2 * q.radius
      invariant forall j: nat :: j < q.window ==> scratch[j] == RingAt(q.ring, AStart(q) + j)
      invariant forall j: nat :: j < i ==> scratch[q.window..][j] == RingAt(q.ring, BStart(q, 0) + j)
    {
      scratch[q.window + i] := RingAt(q.ring, BStart(q, 0) + i);
    }
  }

  /** Products read from the copies instead of the ring. */
  method CopiedProducts(ring: seq<real>, n: nat, a: seq<real>, b: seq<real>, at: nat, ghost aStart: nat,
    ghost bStart: nat)
    returns (dot: real, bb: real)
    requires ring != [] && |a| == n && CopyOf(ring, aStart, a) && CopyOf(ring, bStart, b)
    requires at + n <= |b|
    ensures dot == Correlation(ring, aStart, bStart + at, n) && bb == Energy(ring, bStart + at, n)
  {
    hide Fma, RingAt, CopyOf;
    dot, bb := 0.0, 0.0;
    for i := 0 to n
      invariant dot == Correlation(ring, aStart, bStart + at, i) && bb == Energy(ring, bStart + at, i)
    {
      Sample(ring, aStart, a, i);
      Sample(ring, bStart, b, at + i);
      assert bStart + (at + i) == bStart + at + i;
      dot, bb := Fma(a[i], b[at + i], dot), Fma(b[at + i], b[at + i], bb);
    }
  }

  method CopiedEnergy(ring: seq<real>, a: seq<real>, ghost aStart: nat) returns (aa: real)
    requires ring != [] && CopyOf(ring, aStart, a)
    ensures aa == Energy(ring, aStart, |a|)
  {
    hide Fma, RingAt, CopyOf;
    aa := 0.0;
    for i := 0 to |a|
      invariant aa == Energy(ring, aStart, i)
    {
      Sample(ring, aStart, a, i);
      aa := Fma(a[i], a[i], aa);
    }
  }

  /** What the sliding form carries from one valid candidate to the next. */
  datatype Sliding = NoEnergy | Slide(energy: real)

  ghost predicate SlidingFits(q: Search, k: nat, s: Sliding)
    requires Admissible(q)
  {
    s.Slide? ==> k > 0 && Valid(q, k - 1) && s.energy == Energy(q.ring, BStart(q, k - 1), q.window)
  }

  method SlidingEnergy(q: Search, k: nat, before: Sliding) returns (bb: real)
    requires Admissible(q) && Valid(q, k) && SlidingFits(q, k, before)
    ensures bb == Energy(q.ring, BStart(q, k), q.window)
  {
    hide Mul, RingAt, Energy, And;
    var b := BStart(q, k);
    match before
    case NoEnergy => bb := EnergyOf(q.ring, b, q.window);
    case Slide(energy) =>
      SlideEnergy(q.ring, b - 1, q.window);
      var leaving, entering := RingAt(q.ring, b - 1), RingAt(q.ring, b + q.window - 1);
      bb := energy - Mul(leaving, leaving) + Mul(entering, entering);
  }

  /** The inner products of one candidate, by a form that reads the ring. */
  method RingProducts(variant: Variant, q: Search, k: nat, aaReused: real, sliding: Sliding)
    returns (dot: real, aa: real, bb: real, sliding': Sliding)
    requires Admissible(q) && Valid(q, k) && SlidingFits(q, k, sliding)
    requires variant != LinearScratch && variant != ContiguousMulti4 && variant != ContiguousMulti8
    requires variant.Reference? || aaReused == Energy(q.ring, AStart(q), q.window)
    ensures dot == Correlation(q.ring, AStart(q), BStart(q, k), q.window)
    ensures aa == Energy(q.ring, AStart(q), q.window) && bb == Energy(q.ring, BStart(q, k), q.window)
    ensures SlidingFits(q, k + 1, sliding')
  {
    hide Correlation, Energy, And;
    var a, b, n := AStart(q), BStart(q, k), q.window;
    dot, aa, bb, sliding' := 0.0, aaReused, 0.0, NoEnergy;
    match variant
    case Reference => dot, aa, bb := PlainProducts(q.ring, a, b, n);
    case ReuseAa => dot, bb := DotAndEnergy(q.ring, a, b, n);
    case Fma4AccDot =>
      dot := DotFma4(q.ring, a, b, n);
      bb := EnergyOf(q.ring, b, n);
    case Fma8AccDot =>
      dot := DotFma8(q.ring, a, b, n);
      bb := EnergyOf(q.ring, b, n);
    case Fma8SlidingBb =>
      dot := DotFma8(q.ring, a, b, n);
      bb := SlidingEnergy(q, k, sliding);
      sliding' := Slide(bb);
  }

  method Store(scores: array<real>, k: nat, score: real)
    modifies scores
    ensures forall j: nat :: j < scores.Length ==> scores[j] == if j == k then score else old(scores[j])
  {
    if k < scores.Length {
      scores[k] := score;
    }
  }

  /** The forms that take one candidate after the other. */
  method ScalarSearch(variant: Variant, q: Search, root: real -> real, scratch: array<real>, scores: array<real>)
    returns (r: Result)
    requires Admissible(q) && IsSquareRoot(root) && scratch != scores
    requires variant != ContiguousMulti4 && variant != ContiguousMulti8
    modifies scratch, scores
    ensures Found(q, root, r, old(scores[..]), scores[..])
  {
    hide Correlation, Energy, Finish, CopyOf, IsSquareRoot, And, RingAt, Fma;
    var a, n := AStart(q), q.window;
    var useLinear := variant.LinearScratch? && 2 * n + 2 * q.radius <= scratch.Length && q.predicted - q.radius >= n;
    var effective := if variant.LinearScratch? && !useLinear then ReuseAa else variant;
    var aCopy, bCopy: seq<real> := [], [];
    var aaReused := 0.0;
    if useLinear {
      FillScratch(q, scratch);
      aCopy, bCopy := scratch[..n], scratch[n..2 * n + 2 * q.radius];
      aaReused := CopiedEnergy(q.ring, aCopy, a);
    } else if effective != Reference {
      aaReused := EnergyOf(q.ring, a, n);
    }
    var sliding := NoEnergy;
    r := NOTHING;
    for k := 0 to 2 * q.radius + 1
      invariant r == Best(q, root, k)
      invariant ScoresWritten(q, root, k, old(scores[..]), scores[..])
      invariant SlidingFits(q, k, sliding) && (useLinear ==> sliding.NoEnergy?)
    {
      if q.predicted - q.radius + k < n {
        Store(scores, k, -2.0);
      } else {
        var dot, aa, bb := 0.0, aaReused, 0.0;
        if useLinear {
          dot, bb := CopiedProducts(q.ring, n, aCopy, bCopy, k, a, BStart(q, 0));
        } else {
          dot, aa, bb, sliding := RingProducts(effective, q, k, aaReused, sliding);
        }
        var score := Finish(root, dot, aa, bb);
        Store(scores, k, score);
        r := Consider(r, score, -q.radius + k, n);
      }
    }
  }

  function Better(r: Result, score: real, offset: int): Result {
    if score > r.bestScore then r.(bestScore := score, bestOffset := offset) else r
  }

  lemma BestNext(q: Search, root: real -> real, k: nat)
    requires Admissible(q) && IsSquareRoot(root) && Valid(q, k)
    ensures Best(q, root, k + 1) == Consider(Best(q, root, k), Score(q, root, k), -q.radius + k, q.window)
  {
  }

  method FinishAll(q: Search, root: real -> real, at: nat, dots: seq<real>, aa: real, bbs: seq<real>)
    returns (s: seq<real>)
    requires Admissible(q) && IsSquareRoot(root) && Valid(q, 0)
    requires |dots| == |bbs| && aa == Energy(q.ring, AStart(q), q.window)
    requires forall j: nat :: j < |dots| ==>
               && dots[j] == Correlation(q.ring, AStart(q), BStart(q, 0) + at + j, q.window)
               && bbs[j] == Energy(q.ring, BStart(q, 0) + at + j, q.window)
    ensures |s| == |dots| && forall j: nat :: j < |s| ==> s[j] == Score(q, root, at + j)
  {
    hide Correlation, Energy, Finish, And;
    s := [];
    for i := 0 to |dots|
      invariant |s| == i && forall j: nat :: j < i ==> s[j] == Score(q, root, at + j)
    {
      assert BStart(q, at + i) == BStart(q, 0) + at + i;
      s := s + [Finish(root, dots[i], aa, bbs[i])];
    }
  }

  method StoreAll(scores: array<real>, at: nat, s: seq<real>)
    modifies scores
    ensures forall j: nat :: j < scores.Length ==>
              scores[j] == if at <= j < at + |s| then s[j - at] else old(scores[j])
  {
    for i := 0 to |s|
      invariant forall j: nat :: j < scores.Length ==>
                  scores[j] == if at <= j < at + i then s[j - at] else old(scores[j])
    {
      Store(scores, at + i, s[i]);
    }
  }

  /** 4 neighbouring scores, compared in increasing-offset order. */
  method Pick4(q: Search, root: real -> real, at: nat, before: Result, s: seq<real>) returns (r: Result)
    requires Admissible(q) && IsSquareRoot(root) && Valid(q, 0)
    requires |s| == 4 && before == Best(q, root, at)
    requires forall j: nat :: j < 4 ==> s[j] == Score(q, root, at + j)
    ensures r == Best(q, root, at + 4)
  {
    hide Score, Best, And;
    r := before;
    r := Better(r, s[0], -q.radius + at);
    r := Better(r, s[1], -q.radius + at + 1);
    r := Better(r, s[2], -q.radius + at + 2);
    r := Better(r, s[3], -q.radius + at + 3);
    r := r.(offsets := r.offsets + 4, samplePairs := r.samplePairs + 4 * q.window);
    BestNext(q, root, at);
    BestNext(q, root, at + 1);
    BestNext(q, root, at + 2);
    BestNext(q, root, at + 3);
  }

  /** 8 neighbouring scores, compared in increasing-offset order. */
  method Pick8(q: Search, root: real -> real, at: nat, before: Result, s: seq<real>) returns (r: Result)
    requires Admissible(q) && IsSquareRoot(root) && Valid(q, 0)
    requires |s| == 8 && before == Best(q, root, at)
    requires forall j: nat :: j < 8 ==> s[j] == Score(q, root, at + j)
    ensures r == Best(q, root, at + 8)
  {
    hide Score, Best, And;
    r := before;
    r := Better(r, s[0], -q.radius + at);
    r := Better(r, s[1], -q.radius + at + 1);
    r := Better(r, s[2], -q.radius + at + 2);
    r := Better(r, s[3], -q.radius + at + 3);
    r := Better(r, s[4], -q.radius + at + 4);
    r := Better(r, s[5], -q.radius + at + 5);
    r := Better(r, s[6], -q.radius + at + 6);
    r := Better(r, s[7], -q.radius + at + 7);
    r := r.(offsets := r.offsets + 8, samplePairs := r.samplePairs + 8 * q.window);
    BestNext(q, root, at);
    BestNext(q, root, at + 1);
    BestNext(q, root, at + 2);
    BestNext(q, root, at + 3);
    BestNext(q, root, at + 4);
    BestNext(q, root, at + 5);
    BestNext(q, root, at + 6);
    BestNext(q, root, at + 7);
  }

  /** Room for the copies of windows that wrap round the end of the ring. */
  const A_LOCAL := 512
  const B_LOCAL := 1024

  predicate Contiguous(q: Search, start: nat, length: nat)
    requires Admissible(q)
  {
    And(start, |q.ring| - 1) + length <= |q.ring|
  }

  /** What the contiguous forms need of the local buffers when a window wraps. */
  predicate CopiesFit(q: Search, scratchLength: nat)
    requires Admissible(q) && Valid(q, 0)
  {
    var bLength := 2 * q.radius + q.window;
    && (Contiguous(q, AStart(q), q.window) || q.window <= A_LOCAL)
    && (Contiguous(q, BStart(q, 0), bLength) || bLength <= scratchLength || bLength <= B_LOCAL)
  }

  const AUDIO_HISTORY := 16384
  const LINEAR := 768

  function AtLeast(low: int, x: int): int {
    if low < x then x else low
  }

  /** The one search the analysis makes: for the mark a period after the previous one. */
  function NextMark(ring: seq<real>, previous: nat, period: nat): Search {
    Search(ring, previous, previous + period, AtLeast(2, period / 5), AtLeast(4, period / 2))
  }

  /** The analysis turns down other periods before it searches. */
  predicate SearchablePeriod(period: nat) {
    8 <= period && period * 3 < AUDIO_HISTORY
  }

  lemma HistoryWraps(position: nat)
    ensures And(AUDIO_HISTORY, AUDIO_HISTORY - 1) == 0
    ensures And(position, AUDIO_HISTORY - 1) == position % AUDIO_HISTORY
  {
    assert Power2(4) == 16;
    assert Power2(8) == 256;
    assert Power2(12) == 4096;
    assert Power2(14) == AUDIO_HISTORY;
    PowerOfTwoTest(AUDIO_HISTORY);
    AndMask(position, 14);
  }

  /** A mark whose window is longer than the local buffer and wraps after its first sample. */
  lemma LongPeriodOverruns(ring: seq<real>, period: nat) returns (previous: nat)
    requires |ring| == AUDIO_HISTORY && SearchablePeriod(period) && period > 2 * A_LOCAL + 1
    ensures var q := NextMark(ring, previous, period);
            Admissible(q) && Valid(q, 0) && !CopiesFit(q, LINEAR)
  {
    hide And;
    previous := AUDIO_HISTORY - 1 + period / 2;
    HistoryWraps(AUDIO_HISTORY - 1);
  }

  /** Whatever the marks, the analysis' own searches never overrun the local buffers, exactly for
      periods of up to 1025 samples. */
  lemma NextMarkFitsIff(period: nat)
    requires SearchablePeriod(period)
    ensures (forall ring: seq<real>, previous: nat ::
               var q := NextMark(ring, previous, period);
               |ring| == AUDIO_HISTORY && Admissible(q) && Valid(q, 0) ==> CopiesFit(q, LINEAR))
       <==> period <= 2 * A_LOCAL + 1
  {
    hide And, Contiguous;
    if period > 2 * A_LOCAL + 1 {
      var ring := seq(AUDIO_HISTORY, _ => 0.0);
      var previous := LongPeriodOverruns(ring, period);
      assert !CopiesFit(NextMark(ring, previous, period), LINEAR);
    }
  }

  lemma ContiguousSample(ring: seq<real>, start: nat, i: nat)
    requires ring != [] && And(|ring|, |ring| - 1) == 0
    requires And(start, |ring| - 1) + i < |ring|
    ensures RingAt(ring, start + i) == ring[And(start, |ring| - 1) + i]
  {
    hide And;
    var n := |ring|;
    MaskIsModulo(n, start);
    MaskIsModulo(n, start + i);
    DivModUnique(start + i, n, start / n, start % n + i);
  }

  /** A region of the ring that does not wrap is a copy of itself. */
  lemma ContiguousRegion(q: Search, start: nat, length: nat)
    requires Admissible(q) && Contiguous(q, start, length)
    ensures var at := And(start, |q.ring| - 1);
            CopyOf(q.ring, start, q.ring[at..at + length])
  {
    hide And, RingAt;
    var at := And(start, |q.ring| - 1);
    var s := q.ring[at..at + length];
    forall i: nat | i < |s|
      ensures s[i] == RingAt(q.ring, start + i)
    {
      ContiguousSample(q.ring, start, i);
    }
  }

  method CopyRegion(ring: seq<real>, start: nat, length: nat, dest: array<real>)
    requires ring != [] && length <= dest.Length
    modifies dest
    ensures CopyOf(ring, start, dest[..length])
  {
    hide RingAt;
    for i := 0 to length
      invariant forall j: nat :: j < i ==> dest[j] == RingAt(ring, start + j)
    {
      dest[i] := RingAt(ring, start + i);
    }
  }

  method Region(q: Search, start: nat, length: nat, dest: array<real>) returns (s: seq<real>)
    requires Admissible(q) && (Contiguous(q, start, length) || length <= dest.Length)
    modifies dest
    ensures |s| == length && CopyOf(q.ring, start, s)
  {
    hide RingAt, CopyOf;
    var at := And(start, |q.ring| - 1);
    if at + length <= |q.ring| {
      ContiguousRegion(q, start, length);
      s := q.ring[at..at + length];
    } else {
      CopyRegion(q.ring, start, length, dest);
      s := dest[..length];
    }
  }

  /** The forms that take four or eight candidates at a time from contiguous samples. */
  method ContiguousSearch(eight: bool, q: Search, root: real -> real, scratch: array<real>, scores: array<real>)
    returns (r: Result)
    requires Admissible(q) && IsSquareRoot(root) && scratch != scores
    requires Valid(q, 0) ==> CopiesFit(q, scratch.Length)
    modifies scratch, scores
    ensures Found(q, root, r, old(scores[..]), scores[..])
  {
    hide Correlation, Energy, Finish, CopyOf, IsSquareRoot, And, Best, Score;
    if q.predicted - q.radius < q.window {
      r := ScalarSearch(ReuseAa, q, root, scratch, scores);
      return;
    }
    var n, bLength := q.window, 2 * q.radius + q.window;
    var aLocal, bLocal := new real[A_LOCAL], new real[B_LOCAL];
    var a := Region(q, AStart(q), n, aLocal);
    var b := Region(q, BStart(q, 0), bLength, if scratch.Length >= bLength then scratch else bLocal);
    var aa := CopiedEnergy(q.ring, a, AStart(q));
    var total, k := 2 * q.radius + 1, 0;
    ghost var x, y, before := AStart(q), BStart(q, 0), old(scores[..]);
    BestOfNone(q, root);
    r := NOTHING;
    if eight {
      while k + 7 < total
        invariant 0 <= k <= total && r == Best(q, root, k) && ScoresWritten(q, root, k, before, scores[..])
      {
        var dots, bbs := Block8(q.ring, n, a, b, k, x, y);
        var s := FinishAll(q, root, k, dots, aa, bbs);
        StoreAll(scores, k, s);
        r := Pick8(q, root, k, r, s);
        k := k + 8;
      }
    }
    while k + 3 < total
      invariant 0 <= k <= total && r == Best(q, root, k) && ScoresWritten(q, root, k, before, scores[..])
    {
      var dots, bbs := Block4(q.ring, n, a, b, k, x, y);
      var s := FinishAll(q, root, k, dots, aa, bbs);
      StoreAll(scores, k, s);
      r := Pick4(q, root, k, r, s);
      k := k + 4;
    }
    while k < total
      invariant 0 <= k <= total && r == Best(q, root, k) && ScoresWritten(q, root, k, before, scores[..])
    {
      var dot, bb := CopiedProducts(q.ring, n, a, b, k, x, y);
      r := ConsiderOne(q, root, k, r, dot, aa, bb, scores);
      k := k + 1;
    }
  }

  lemma BestOfNone(q: Search, root: real -> real)
    requires Admissible(q) && IsSquareRoot(root)
    ensures Best(q, root, 0) == NOTHING
  {
  }

  method ConsiderOne(q: Search, root: real -> real, at: nat, before: Result, dot: real, aa: real, bb: real,
                     scores: array<real>)
    returns (r: Result)
    requires Admissible(q) && IsSquareRoot(root) && Valid(q, 0)
    requires dot == Correlation(q.ring, AStart(q), BStart(q, 0) + at, q.window)
    requires aa == Energy(q.ring, AStart(q), q.window) && bb == Energy(q.ring, BStart(q, 0) + at, q.window)
    requires before == Best(q, root, at)
    modifies scores
    ensures r == Best(q, root, at + 1)
    ensures forall j: nat :: j < scores.Length ==> scores[j] == if j == at then Score(q, root, j) else old(scores[j])
  {
    hide Correlation, Energy, Finish, And;
    var score := Finish(root, dot, aa, bb);
    Store(scores, at, score);
    r := Consider(before, score, -q.radius + at, q.window);
  }

  /** `pitch_mark_ncc_search`: whatever the variant, the same result and the same scores. */
  method NccSearch(variant: Variant, q: Search, root: real -> real, scratch: array<real>, scores: array<real>)
    returns (r: Result)
    requires IsSquareRoot(root) && scratch != scores
    requires (variant.ContiguousMulti4? || variant.ContiguousMulti8?) && Admissible(q) && Valid(q, 0)
             ==> CopiesFit(q, scratch.Length)
    modifies scratch, scores
    ensures Found(q, root, r, old(scores[..]), scores[..])
  {
    if |q.ring| == 0 || And(|q.ring|, |q.ring| - 1) != 0 || q.radius < 0 || q.window <= 0 || q.previous < q.window {
      return NOTHING;
    }
    if variant == ContiguousMulti4 {
      r := ContiguousSearch(false, q, root, scratch, scores);
    } else if variant == ContiguousMulti8 {
      r := ContiguousSearch(true, q, root, scratch, scores);
    } else {
      r := ScalarSearch(variant, q, root, scratch, scores);
    }
  }
}
