/** What the pitch-mark search computes: the normalised correlation of a window before the
    previous mark with windows around the predicted one, and the first offset that maximises
    it. Samples are exact reals; the square root is any function that is one. */
module PitchMark {
  import opened BitMask

  datatype Search = Search(ring: seq<real>, previous: nat, predicted: nat, radius: int, window: int)

  datatype Result = Result(bestScore: real, bestOffset: int, offsets: nat, samplePairs: nat)

  const NOTHING := Result(-2.0, 0, 0, 0)

  /** The guard at the head of the search. */
  predicate Admissible(q: Search) {
    && |q.ring| != 0 && And(|q.ring|, |q.ring| - 1) == 0
    && q.radius >= 0 && q.window > 0 && q.previous >= q.window
  }

  function Mul(a: real, b: real): real {
    a * b
  }

  /** `fma` without rounding. */
  function Fma(a: real, b: real, c: real): real {
    Mul(a, b) + c
  }

  function RingAt(ring: seq<real>, position: nat): real
    requires ring != []
  {
    AndBound(position, |ring| - 1);
    ring[And(position, |ring| - 1)]
  }

  lemma RingWraps(ring: seq<real>, position: nat)
    requires ring != [] && And(|ring|, |ring| - 1) == 0
    ensures RingAt(ring, position) == ring[position % |ring|]
  {
    MaskIsModulo(|ring|, position);
  }

  /** The sum of products of n samples from a and from b. */
  function Correlation(ring: seq<real>, a: nat, b: nat, n: nat): real
    requires ring != []
  {
    if n == 0 then 0.0
    else Fma(RingAt(ring, a + n - 1), RingAt(ring, b + n - 1), Correlation(ring, a, b, n - 1))
  }

  function Energy(ring: seq<real>, a: nat, n: nat): real
    requires ring != []
  {
    Correlation(ring, a, a, n)
  }

  ghost predicate IsSquareRoot(root: real -> real) {
    forall x: real :: x >= 0.0 ==> root(x) >= 0.0 && root(x) * root(x) == x
  }

  const FLOOR := 0.00000000000000000001

  function Clamp(x: real): (r: real)
    ensures r >= x && r >= FLOOR
  {
    if x < FLOOR then FLOOR else x
  }

  lemma RootPositive(root: real -> real, x: real)
    requires IsSquareRoot(root) && x > 0.0
    ensures root(x) > 0.0
  {
    assert root(x) * root(x) == x;
  }

  /** `finish_score`. */
  function Finish(root: real -> real, dot: real, aa: real, bb: real): real
    requires IsSquareRoot(root)
  {
    RootPositive(root, Clamp(aa * bb));
    dot / root(Clamp(aa * bb))
  }

  function Candidate(q: Search, k: nat): int {
    q.predicted - q.radius + k
  }

  /** A candidate early in the stream has no full window before it and is skipped. */
  predicate Valid(q: Search, k: nat) {
    Candidate(q, k) >= q.window
  }

  function Candidates(q: Search): nat
    requires Admissible(q)
  {
    2 * q.radius + 1
  }

  function AStart(q: Search): nat
    requires Admissible(q)
  {
    q.previous - q.window
  }

  function BStart(q: Search, k: nat): nat
    requires Valid(q, k)
  {
    Candidate(q, k) - q.window
  }

  /** The score reported for the k-th offset. */
  function Score(q: Search, root: real -> real, k: nat): real
    requires Admissible(q) && IsSquareRoot(root)
  {
    if Valid(q, k) then
      Finish(root, Correlation(q.ring, AStart(q), BStart(q, k), q.window),
             Energy(q.ring, AStart(q), q.window), Energy(q.ring, BStart(q, k), q.window))
    else -2.0
  }

  function Consider(r: Result, score: real, offset: int, pairs: nat): Result {
    Result(if score > r.bestScore then score else r.bestScore,
           if score > r.bestScore then offset else r.bestOffset,
           r.offsets + 1, r.samplePairs + pairs)
  }

  /** The result after the first k offsets. */
  function Best(q: Search, root: real -> real, k: nat): Result
    requires Admissible(q) && IsSquareRoot(root)
  {
    if k == 0 then NOTHING
    else
      var before := Best(q, root, k - 1);
      if Valid(q, k - 1) then Consider(before, Score(q, root, k - 1), -q.radius + k - 1, q.window) else before
  }

  // ---------------------------------------------------------------------
  // Cauchy-Schwarz
  // ---------------------------------------------------------------------

  lemma SquareNonNegative(x: real)
    ensures x * x >= 0.0
  {
  }

  lemma ProductPositive(a: real, b: real)
    requires a > 0.0 && b > 0.0
    ensures a * b > 0.0
  {
  }

  lemma DifferenceOfSquares(t: real, s: real)
    ensures t * t - s * s == (t - s) * (t + s)
  {
  }

  lemma SquaresOrder(t: real, s: real)
    requires s >= 0.0 && t * t <= s * s
    ensures t <= s
  {
    if t > s {
      DifferenceOfSquares(t, s);
      ProductPositive(t - s, t + s);
    }
  }

  lemma ProductNonNegative(a: real, b: real)
    requires a >= 0.0 && b >= 0.0
    ensures a * b >= 0.0
  {
  }

  lemma ProductsOrder(a: real, b: real, c: real)
    requires a <= b && c >= 0.0
    ensures a * c <= b * c
  {
  }

  /** One more pair of samples keeps the inequality. */
  lemma CauchySchwarzStep(p: real, a: real, b: real, u: real, v: real)
    requires a >= 0.0 && b >= 0.0 && p * p <= a * b
    ensures (p + u * v) * (p + u * v) <= (a + u * u) * (b + v * v)
  {
    var m, n := a * (v * v), b * (u * u);
    var t := 2.0 * (p * (u * v));
    SquareNonNegative(u);
    SquareNonNegative(v);
    ProductNonNegative(a, v * v);
    ProductNonNegative(b, u * u);
    // t * t <= 4 m n <= (m + n) * (m + n)
    assert t * t == 4.0 * ((p * p) * ((u * v) * (u * v))) by { Rearrange(p, u * v); }
    SquareNonNegative(u * v);
    ProductsOrder(p * p, a * b, (u * v) * (u * v));
    assert (a * b) * ((u * v) * (u * v)) == m * n by { Regroup(a, b, u, v); }
    FourTimes(m, n);
    SquaresOrder(t, m + n);
    Expand(p, a, b, u, v);
  }

  lemma Rearrange(p: real, w: real)
    ensures (2.0 * (p * w)) * (2.0 * (p * w)) == 4.0 * ((p * p) * (w * w))
  {
  }

  lemma Regroup(a: real, b: real, u: real, v: real)
    ensures (a * b) * ((u * v) * (u * v)) == (a * (v * v)) * (b * (u * u))
  {
  }

  lemma FourTimes(m: real, n: real)
    ensures 4.0 * (m * n) <= (m + n) * (m + n)
  {
    SquareNonNegative(m - n);
    assert (m + n) * (m + n) - 4.0 * (m * n) == (m - n) * (m - n);
  }

  lemma Expand(p: real, a: real, b: real, u: real, v: real)
    ensures (p + u * v) * (p + u * v) == p * p + 2.0 * (p * (u * v)) + (u * u) * (v * v)
    ensures (a + u * u) * (b + v * v) == a * b + a * (v * v) + b * (u * u) + (u * u) * (v * v)
  {
  }

  /** p is no more than the energies a and b allow. */
  ghost predicate Bounded(p: real, a: real, b: real) {
    p * p <= a * b
  }

  lemma BoundedStep(p: real, a: real, b: real, u: real, v: real)
    requires a >= 0.0 && b >= 0.0 && Bounded(p, a, b)
    ensures Bounded(Fma(u, v, p), Fma(u, u, a), Fma(v, v, b))
  {
    CauchySchwarzStep(p, a, b, u, v);
  }

  lemma {:induction false} EnergyNonNegative(ring: seq<real>, a: nat, n: nat)
    requires ring != []
    ensures Energy(ring, a, n) >= 0.0
    decreases n
  {
    if n > 0 {
      hide RingAt, Mul;
      EnergyNonNegative(ring, a, n - 1);
      SquareIsMul(RingAt(ring, a + n - 1));
    }
  }

  lemma SquareIsMul(x: real)
    ensures Mul(x, x) >= 0.0
  {
    SquareNonNegative(x);
  }

  /** The square of a correlation is at most the product of the two energies. */
  lemma {:induction false} CauchySchwarz(ring: seq<real>, a: nat, b: nat, n: nat)
    requires ring != []
    ensures Bounded(Correlation(ring, a, b, n), Energy(ring, a, n), Energy(ring, b, n))
    decreases n
  {
    if n > 0 {
      hide RingAt, Fma, Bounded;
      CauchySchwarz(ring, a, b, n - 1);
      EnergyNonNegative(ring, a, n - 1);
      EnergyNonNegative(ring, b, n - 1);
      BoundedStep(Correlation(ring, a, b, n - 1), Energy(ring, a, n - 1), Energy(ring, b, n - 1),
                  RingAt(ring, a + n - 1), RingAt(ring, b + n - 1));
    }
  }

  lemma QuotientBound(x: real, d: real)
    requires d > 0.0 && x * x <= d * d
    ensures -1.0 <= x / d <= 1.0
  {
    SquaresOrder(x, d);
    SquaresOrder(-x, d);
    assert x / d * d == x;
  }

  /** Every valid candidate's score lies between -1 and 1, whatever the samples. */
  lemma ScoreBound(q: Search, root: real -> real, k: nat)
    requires Admissible(q) && IsSquareRoot(root) && Valid(q, k)
    ensures -1.0 <= Score(q, root, k) <= 1.0
  {
    hide Correlation, Energy;
    var a, b := AStart(q), BStart(q, k);
    var dot, aa, bb :=
      Correlation(q.ring, a, b, q.window), Energy(q.ring, a, q.window), Energy(q.ring, b, q.window);
    CauchySchwarz(q.ring, a, b, q.window);
    assert dot * dot <= aa * bb;
    var d := root(Clamp(aa * bb));
    RootPositive(root, Clamp(aa * bb));
    assert d * d == Clamp(aa * bb);
    QuotientBound(dot, d);
  }

  // ---------------------------------------------------------------------
  // The winner
  // ---------------------------------------------------------------------

  /** How many of the first k offsets are valid. */
  function ValidCount(q: Search, k: nat): nat {
    if k == 0 then 0 else ValidCount(q, k - 1) + if Valid(q, k - 1) then 1 else 0
  }

  /** The result names the first of the first k offsets with the highest valid score. */
  ghost predicate FirstMaximum(q: Search, root: real -> real, k: nat, r: Result)
    requires Admissible(q) && IsSquareRoot(root)
  {
    var w := r.bestOffset + q.radius;
    && 0 <= w < k && Valid(q, w) && r.bestScore == Score(q, root, w)
    && (forall j: nat :: j < k && Valid(q, j) ==> Score(q, root, j) <= r.bestScore)
    && (forall j: nat :: j < w && Valid(q, j) ==> Score(q, root, j) < r.bestScore)
  }

  lemma {:induction false} BestIsFirstMaximum(q: Search, root: real -> real, k: nat)
    requires Admissible(q) && IsSquareRoot(root)
    ensures var r := Best(q, root, k);
            && r.offsets == ValidCount(q, k)
            && r.samplePairs == ValidCount(q, k) * q.window
            && (ValidCount(q, k) == 0 ==> r == NOTHING)
            && (ValidCount(q, k) > 0 ==> FirstMaximum(q, root, k, r))
    decreases k
  {
    hide Score;
    if k > 0 {
      BestIsFirstMaximum(q, root, k - 1);
      var n := ValidCount(q, k - 1);
      assert (n + 1) * q.window == n * q.window + q.window;
      if Valid(q, k - 1) {
        ScoreBound(q, root, k - 1);
        if n == 0 {
          NoneValid(q, k - 1);
        }
      }
    }
  }

  lemma {:induction false} NoneValid(q: Search, k: nat)
    requires ValidCount(q, k) == 0
    ensures forall j :: 0 <= j < k ==> !Valid(q, j)
    decreases k
  {
    if k > 0 {
      NoneValid(q, k - 1);
    }
  }

  lemma {:induction false} SomeValid(q: Search, k: nat)
    requires k > 0 && Valid(q, k - 1)
    ensures ValidCount(q, k) > 0
  {
  }

  /** The whole search: the initial score of -2 is reported exactly when no candidate has a full
      window before it; otherwise the winner is the smallest offset with the highest score. */
  lemma SearchResult(q: Search, root: real -> real)
    requires Admissible(q) && IsSquareRoot(root)
    ensures var n := Candidates(q);
            var r := Best(q, root, n);
            && (r.bestScore == -2.0 <==> q.predicted + q.radius < q.window)
            && (r.bestScore != -2.0 ==> -1.0 <= r.bestScore <= 1.0 && FirstMaximum(q, root, n, r))
  {
    hide Score;
    var n := Candidates(q);
    BestIsFirstMaximum(q, root, n);
    if Valid(q, n - 1) {
      SomeValid(q, n);
    } else if ValidCount(q, n) > 0 {
      assert false;
    }
    if ValidCount(q, n) > 0 {
      ScoreBound(q, root, Best(q, root, n).bestOffset + q.radius);
    }
  }
}
