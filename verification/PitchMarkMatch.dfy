/** Which windows the pitch-mark search takes for a perfect match: exactly the positive multiples
    of the reference window, and for its exact opposite the negative ones. */
module PitchMarkMatch {
  import opened BitMask
  import opened PitchMark

  /** The i-th sample of the window before the previous mark. */
  function Reference(q: Search, i: nat): real
    requires Admissible(q) && i < q.window
  {
    q.ring[(q.previous - q.window + i) % |q.ring|]
  }

  /** The i-th sample of the window before the k-th candidate. */
  function Sample(q: Search, k: nat, i: nat): real
    requires Admissible(q) && i < q.window && q.predicted - q.radius + k >= q.window
  {
    q.ring[(q.predicted - q.radius + k - q.window + i) % |q.ring|]
  }

  /** The candidate's window is c times the reference window. */
  ghost predicate Multiple(q: Search, k: nat, c: real)
    requires Admissible(q) && q.predicted - q.radius + k >= q.window
  {
    forall i: nat :: i < q.window ==> Sample(q, k, i) == c * Reference(q, i)
  }

  lemma SamplesRead(q: Search, k: nat, i: nat)
    requires Admissible(q) && Valid(q, k) && i < q.window
    ensures RingAt(q.ring, AStart(q) + i) == Reference(q, i)
    ensures RingAt(q.ring, BStart(q, k) + i) == Sample(q, k, i)
  {
    RingWraps(q.ring, AStart(q) + i);
    RingWraps(q.ring, BStart(q, k) + i);
  }

  /** The three sums over one more pair of samples. */
  lemma SumsOfOneMore(q: Search, k: nat, n: nat)
    requires Admissible(q) && Valid(q, k) && 0 < n <= q.window
    ensures var a, b, i := AStart(q), BStart(q, k), n - 1;
            && Correlation(q.ring, a, b, n) == Fma(Reference(q, i), Sample(q, k, i), Correlation(q.ring, a, b, i))
            && Energy(q.ring, a, n) == Fma(Reference(q, i), Reference(q, i), Energy(q.ring, a, i))
            && Energy(q.ring, b, n) == Fma(Sample(q, k, i), Sample(q, k, i), Energy(q.ring, b, i))
  {
    hide RingAt, And, Fma, Reference, Sample;
    SamplesRead(q, k, n - 1);
  }

  // ---------------------------------------------------------------------
  // Proportional windows
  // ---------------------------------------------------------------------

  /** dot and bb are what c times the first window gives. */
  predicate Scaled(c: real, dot: real, aa: real, bb: real) {
    dot == c * aa && bb == c * c * aa
  }

  lemma ScaledTerm(x: real, y: real, c: real, dot: real, aa: real, bb: real)
    requires y == c * x && Scaled(c, dot, aa, bb)
    ensures Scaled(c, Fma(x, y, dot), Fma(x, x, aa), Fma(y, y, bb))
  {
    assert x * y == c * (x * x);
    assert y * y == c * c * (x * x);
  }

  /** One more pair of samples of a multiple. */
  lemma MultipleTerm(q: Search, k: nat, c: real, i: nat, dot: real, aa: real, bb: real)
    requires Admissible(q) && Valid(q, k) && i < q.window && Multiple(q, k, c) && Scaled(c, dot, aa, bb)
    ensures var x, y := Reference(q, i), Sample(q, k, i);
            Scaled(c, Fma(x, y, dot), Fma(x, x, aa), Fma(y, y, bb))
  {
    hide Reference, Sample, Scaled, Fma;
    ScaledTerm(Reference(q, i), Sample(q, k, i), c, dot, aa, bb);
  }

  lemma {:induction false} ScaledSums(q: Search, k: nat, c: real, n: nat)
    requires Admissible(q) && Valid(q, k) && n <= q.window && Multiple(q, k, c)
    ensures Scaled(c, Correlation(q.ring, AStart(q), BStart(q, k), n), Energy(q.ring, AStart(q), n),
                   Energy(q.ring, BStart(q, k), n))
    decreases n
  {
    if n > 0 {
      hide RingAt, And, Fma, Correlation, Sample, Reference, Scaled, Multiple;
      ScaledSums(q, k, c, n - 1);
      SumsOfOneMore(q, k, n);
      MultipleTerm(q, k, c, n - 1, Correlation(q.ring, AStart(q), BStart(q, k), n - 1),
                   Energy(q.ring, AStart(q), n - 1), Energy(q.ring, BStart(q, k), n - 1));
    }
  }

  lemma RootOfSquare(root: real -> real, x: real)
    requires IsSquareRoot(root) && x >= 0.0
    ensures root(x * x) == x
  {
    SquareNonNegative(x);
    var r := root(x * x);
    assert r * r == x * x;
    SquaresOrder(r, x);
    SquaresOrder(x, r);
  }

  lemma ScaledQuotient(root: real -> real, c: real, dot: real, aa: real, bb: real)
    requires IsSquareRoot(root) && aa >= 0.0 && aa * bb >= FLOOR && Scaled(c, dot, aa, bb)
    ensures c > 0.0 ==> Finish(root, dot, aa, bb) == 1.0
    ensures c < 0.0 ==> Finish(root, dot, aa, bb) == -1.0
  {
    assert aa * bb == dot * dot;
    SignOfProduct(c, aa);
    if c > 0.0 {
      QuotientByRoot(root, dot, aa, bb, dot, 1.0);
    } else if c < 0.0 {
      assert (0.0 - dot) * (0.0 - dot) == dot * dot;
      QuotientByRoot(root, dot, aa, bb, 0.0 - dot, -1.0);
    }
  }

  lemma QuotientByRoot(root: real -> real, dot: real, aa: real, bb: real, p: real, t: real)
    requires IsSquareRoot(root) && aa * bb >= FLOOR && p * p == aa * bb && p >= 0.0 && dot == t * p
    ensures Finish(root, dot, aa, bb) == t
  {
    RootOfSquare(root, p);
    assert p != 0.0;
    QuotientIs(dot, p, t);
  }

  lemma QuotientIs(x: real, d: real, t: real)
    requires d != 0.0 && x == t * d
    ensures x / d == t
  {
  }

  lemma SignOfProduct(c: real, a: real)
    requires a >= 0.0
    ensures c > 0.0 ==> c * a >= 0.0
    ensures c < 0.0 ==> c * a <= 0.0
  {
  }

  /** The product of both windows' energies, which the score does not let fall below a floor. */
  function Energies(q: Search, k: nat): real
    requires Admissible(q) && Valid(q, k)
  {
    Energy(q.ring, AStart(q), q.window) * Energy(q.ring, BStart(q, k), q.window)
  }

  /** A multiple of the reference window scores 1 or -1. */
  lemma MultipleScores(q: Search, root: real -> real, k: nat, c: real)
    requires Admissible(q) && IsSquareRoot(root) && Valid(q, k)
    requires Multiple(q, k, c) && Energies(q, k) >= FLOOR
    ensures c > 0.0 ==> Score(q, root, k) == 1.0
    ensures c < 0.0 ==> Score(q, root, k) == -1.0
  {
    hide Correlation, Finish, Multiple, Scaled;
    ScaledSums(q, k, c, q.window);
    EnergyNonNegative(q.ring, AStart(q), q.window);
    ScaledQuotient(root, c, Correlation(q.ring, AStart(q), BStart(q, k), q.window),
                   Energy(q.ring, AStart(q), q.window), Energy(q.ring, BStart(q, k), q.window));
  }

  // ---------------------------------------------------------------------
  // Equality in the Cauchy-Schwarz inequality
  // ---------------------------------------------------------------------

  /** By how much the i-th samples miss the proportion y to x. */
  function Gap(q: Search, k: nat, x: real, y: real, i: nat): real
    requires Admissible(q) && Valid(q, k) && i < q.window
  {
    x * Sample(q, k, i) - y * Reference(q, i)
  }

  function Residual(q: Search, k: nat, x: real, y: real, n: nat): real
    requires Admissible(q) && Valid(q, k) && n <= q.window
  {
    if n == 0 then 0.0
    else Fma(Gap(q, k, x, y, n - 1), Gap(q, k, x, y, n - 1), Residual(q, k, x, y, n - 1))
  }

  function Expanded(x: real, y: real, dot: real, aa: real, bb: real): real {
    x * x * bb - 2.0 * (x * y) * dot + y * y * aa
  }

  lemma ExpandedTerm(x: real, y: real, a: real, b: real, d: real, dot: real, aa: real, bb: real)
    requires d == x * b - y * a
    ensures Expanded(x, y, Fma(a, b, dot), Fma(a, a, aa), Fma(b, b, bb)) == Fma(d, d, Expanded(x, y, dot, aa, bb))
  {
    assert d * d == x * x * (b * b) - 2.0 * (x * y) * (a * b) + y * y * (a * a);
    assert x * x * (b * b + bb) == x * x * (b * b) + x * x * bb;
    assert 2.0 * (x * y) * (a * b + dot) == 2.0 * (x * y) * (a * b) + 2.0 * (x * y) * dot;
    assert y * y * (a * a + aa) == y * y * (a * a) + y * y * aa;
  }

  lemma GapTerm(q: Search, k: nat, x: real, y: real, i: nat, dot: real, aa: real, bb: real)
    requires Admissible(q) && Valid(q, k) && i < q.window
    ensures var a, b, d := Reference(q, i), Sample(q, k, i), Gap(q, k, x, y, i);
            Expanded(x, y, Fma(a, b, dot), Fma(a, a, aa), Fma(b, b, bb))
            == Fma(d, d, Expanded(x, y, dot, aa, bb))
  {
    hide Reference, Sample, Expanded, Fma;
    ExpandedTerm(x, y, Reference(q, i), Sample(q, k, i), Gap(q, k, x, y, i), dot, aa, bb);
  }

  lemma {:induction false} ResidualExpands(q: Search, k: nat, x: real, y: real, n: nat)
    requires Admissible(q) && Valid(q, k) && n <= q.window
    ensures Residual(q, k, x, y, n)
         == Expanded(x, y, Correlation(q.ring, AStart(q), BStart(q, k), n), Energy(q.ring, AStart(q), n),
                     Energy(q.ring, BStart(q, k), n))
    decreases n
  {
    if n > 0 {
      hide RingAt, And, Fma, Correlation, Sample, Reference, Expanded, Gap;
      ResidualExpands(q, k, x, y, n - 1);
      SumsOfOneMore(q, k, n);
      GapTerm(q, k, x, y, n - 1, Correlation(q.ring, AStart(q), BStart(q, k), n - 1),
              Energy(q.ring, AStart(q), n - 1), Energy(q.ring, BStart(q, k), n - 1));
    }
  }

  lemma SquareAdds(d: real, r: real)
    requires r >= 0.0
    ensures Fma(d, d, r) >= 0.0
    ensures Fma(d, d, r) == 0.0 ==> r == 0.0
    ensures Fma(d, d, r) == 0.0 ==> d == 0.0
  {
    SquareIsMul(d);
    if d != 0.0 {
      SquarePositive(d);
    }
  }

  lemma SquarePositive(d: real)
    requires d != 0.0
    ensures Mul(d, d) > 0.0
  {
    if d > 0.0 {
      MulPositive(d, d, Mul(d, d));
    } else {
      MulPositive(-d, -d, Mul(d, d));
    }
  }

  lemma MulPositive(a: real, b: real, m: real)
    requires a > 0.0 && b > 0.0 && m == a * b
    ensures m > 0.0
  {
  }

  /** No residual at all: every sample keeps the proportion. */
  lemma {:induction false} NoResidual(q: Search, k: nat, x: real, y: real, n: nat)
    requires Admissible(q) && Valid(q, k) && n <= q.window
    ensures Residual(q, k, x, y, n) >= 0.0
    ensures Residual(q, k, x, y, n) == 0.0 ==> forall i: nat :: i < n ==> Gap(q, k, x, y, i) == 0.0
    decreases n
  {
    hide Gap, Fma;
    if n > 0 {
      NoResidual(q, k, x, y, n - 1);
      SquareAdds(Gap(q, k, x, y, n - 1), Residual(q, k, x, y, n - 1));
    }
  }

  lemma ResidualCancels(x: real, y: real, bb: real)
    requires y * y == x * bb
    ensures Expanded(x, y, y, x, bb) == 0.0
  {
    assert x * x * bb == x * (x * bb);
    assert (x * y) * y == x * (y * y);
  }

  lemma Proportion(x: real, y: real, a: real, b: real)
    requires x > 0.0 && x * b == y * a
    ensures b == y / x * a
  {
    assert y / x * a == y * a / x;
  }

  /** If the squared correlation is all that the energies allow, the windows are proportional. */
  lemma EqualityIsMultiple(q: Search, k: nat)
    requires Admissible(q) && Valid(q, k)
    requires var dot, aa := Correlation(q.ring, AStart(q), BStart(q, k), q.window),
                            Energy(q.ring, AStart(q), q.window);
             aa > 0.0 && dot * dot == aa * Energy(q.ring, BStart(q, k), q.window)
    ensures Multiple(q, k, Correlation(q.ring, AStart(q), BStart(q, k), q.window)
                           / Energy(q.ring, AStart(q), q.window))
  {
    hide Correlation, And, Residual, Sample, Reference, Expanded;
    var dot, aa := Correlation(q.ring, AStart(q), BStart(q, k), q.window), Energy(q.ring, AStart(q), q.window);
    ResidualExpands(q, k, aa, dot, q.window);
    ResidualCancels(aa, dot, Energy(q.ring, BStart(q, k), q.window));
    NoResidual(q, k, aa, dot, q.window);
    forall i: nat | i < q.window ensures Sample(q, k, i) == dot / aa * Reference(q, i) {
      assert Gap(q, k, aa, dot, i) == 0.0;
      Proportion(aa, dot, Reference(q, i), Sample(q, k, i));
    }
  }

  // ---------------------------------------------------------------------
  // Perfect scores
  // ---------------------------------------------------------------------

  /** Above the floor, and a positive multiple of the reference window. */
  ghost predicate Matches(q: Search, k: nat)
    requires Admissible(q) && Valid(q, k)
  {
    Energies(q, k) >= FLOOR && exists c: real :: c > 0.0 && Multiple(q, k, c)
  }

  /** Above the floor, and a negative multiple of it. */
  ghost predicate Opposes(q: Search, k: nat)
    requires Admissible(q) && Valid(q, k)
  {
    Energies(q, k) >= FLOOR && exists c: real :: c < 0.0 && Multiple(q, k, c)
  }

  /** A quotient of 1 or -1 by the clamped root needs all that the energies allow. */
  lemma PerfectQuotient(root: real -> real, dot: real, aa: real, bb: real)
    requires IsSquareRoot(root) && dot * dot <= aa * bb
    requires Finish(root, dot, aa, bb) == 1.0 || Finish(root, dot, aa, bb) == -1.0
    ensures aa * bb >= FLOOR && dot * dot == aa * bb
    ensures Finish(root, dot, aa, bb) == 1.0 ==> dot > 0.0
    ensures Finish(root, dot, aa, bb) == -1.0 ==> dot < 0.0
  {
    var e := Clamp(aa * bb);
    var d := root(e);
    RootPositive(root, e);
    assert d * d == e;
    assert dot / d * d == dot;
    if dot != d {
      assert dot == 0.0 - d;
      assert (0.0 - d) * (0.0 - d) == d * d;
    }
    assert dot * dot == e;
  }

  lemma SignOfQuotient(x: real, d: real)
    requires d > 0.0
    ensures x > 0.0 ==> x / d > 0.0
    ensures x < 0.0 ==> x / d < 0.0
  {
    assert x / d * d == x;
  }

  lemma PositiveFactor(a: real, b: real)
    requires a >= 0.0 && a * b > 0.0
    ensures a > 0.0
  {
  }

  lemma PerfectIsMultiple(q: Search, root: real -> real, k: nat) returns (c: real)
    requires Admissible(q) && IsSquareRoot(root) && Valid(q, k)
    requires Score(q, root, k) == 1.0 || Score(q, root, k) == -1.0
    ensures Energies(q, k) >= FLOOR && Multiple(q, k, c)
    ensures Score(q, root, k) == 1.0 ==> c > 0.0
    ensures Score(q, root, k) == -1.0 ==> c < 0.0
  {
    hide Correlation, Finish, Multiple;
    var dot, aa, bb := Correlation(q.ring, AStart(q), BStart(q, k), q.window), Energy(q.ring, AStart(q), q.window),
                       Energy(q.ring, BStart(q, k), q.window);
    CauchySchwarz(q.ring, AStart(q), BStart(q, k), q.window);
    PerfectQuotient(root, dot, aa, bb);
    EnergyNonNegative(q.ring, AStart(q), q.window);
    PositiveFactor(aa, bb);
    c := dot / aa;
    EqualityIsMultiple(q, k);
    SignOfQuotient(dot, aa);
  }

  /** A candidate scores 1 exactly if its window is a positive multiple of the reference window and
      the energies reach the floor, and -1 exactly if it is a negative one. */
  lemma PerfectScoreIff(q: Search, root: real -> real, k: nat)
    requires Admissible(q) && IsSquareRoot(root) && Valid(q, k)
    ensures Score(q, root, k) == 1.0 <==> Matches(q, k)
    ensures Score(q, root, k) == -1.0 <==> Opposes(q, k)
  {
    hide Score, Energies, Multiple;
    if Score(q, root, k) == 1.0 || Score(q, root, k) == -1.0 {
      var c := PerfectIsMultiple(q, root, k);
    }
    if Matches(q, k) {
      var c: real :| c > 0.0 && Multiple(q, k, c);
      MultipleScores(q, root, k, c);
    }
    if Opposes(q, k) {
      var c: real :| c < 0.0 && Multiple(q, k, c);
      MultipleScores(q, root, k, c);
    }
  }

  /** A candidate without a full window is reported as -2, which no other can score. */
  lemma SkippedIffMinusTwo(q: Search, root: real -> real, k: nat)
    requires Admissible(q) && IsSquareRoot(root)
    ensures Score(q, root, k) == -2.0 <==> q.predicted - q.radius + k < q.window
  {
    hide Correlation, Finish;
    if Valid(q, k) {
      ScoreBound(q, root, k);
    }
  }

  /** The score is the number with the sign of the correlation whose square, times the clamped product
      of the energies, is the square of the correlation. */
  lemma ScoreIs(q: Search, root: real -> real, k: nat)
    requires Admissible(q) && IsSquareRoot(root) && Valid(q, k)
    ensures var dot, s := Correlation(q.ring, AStart(q), BStart(q, k), q.window), Score(q, root, k);
            var e := if Energies(q, k) < 1.0 / 100000000000000000000.0 then 1.0 / 100000000000000000000.0
                     else Energies(q, k);
            && s * s * e == dot * dot
            && (dot > 0.0 ==> s > 0.0) && (dot < 0.0 ==> s < 0.0) && (dot == 0.0 ==> s == 0.0)
  {
    hide Correlation;
    var dot := Correlation(q.ring, AStart(q), BStart(q, k), q.window);
    var e := Clamp(Energies(q, k));
    var d := root(e);
    RootPositive(root, e);
    SignOfQuotient(dot, d);
    SquareOfQuotient(dot, d);
  }

  lemma SquareOfQuotient(x: real, d: real)
    requires d != 0.0
    ensures x / d * (x / d) * (d * d) == x * x
  {
    var t := x / d;
    assert t * d == x;
    assert t * t * (d * d) == t * d * (t * d);
  }

  /** If some candidate matches, the search reports 1 at the first that does; and it reports 1 at no
      other. */
  lemma SearchFindsMatch(q: Search, root: real -> real)
    requires Admissible(q) && IsSquareRoot(root)
    ensures var r, n := Best(q, root, Candidates(q)), Candidates(q);
            var w := r.bestOffset + q.radius;
            && (r.bestScore == 1.0 <==> exists k: nat :: k < n && Valid(q, k) && Matches(q, k))
            && (r.bestScore == 1.0 ==>
                  && 0 <= w < n && Valid(q, w) && Matches(q, w)
                  && forall j: nat :: j < w && Valid(q, j) ==> !Matches(q, j))
  {
    hide Score, Matches, Opposes, Best;
    var r, n := Best(q, root, Candidates(q)), Candidates(q);
    SearchResult(q, root);
    forall k: nat | k < n && Valid(q, k)
      ensures Score(q, root, k) == 1.0 <==> Matches(q, k)
      ensures Score(q, root, k) <= 1.0
    {
      PerfectScoreIff(q, root, k);
      ScoreBound(q, root, k);
    }
    if k: nat :| k < n && Valid(q, k) && Matches(q, k) {
      assert Valid(q, n - 1);
      assert r.bestScore >= Score(q, root, k);
    }
  }

  /** A candidate that repeats the reference window, if that has any energy to speak of, matches. */
  lemma RepeatMatches(q: Search, k: nat)
    requires Admissible(q) && Valid(q, k) && Energies(q, k) >= FLOOR
    requires forall i: nat :: i < q.window ==> Sample(q, k, i) == Reference(q, i)
    ensures Matches(q, k)
  {
    hide Energies, Sample, Reference;
    assert Multiple(q, k, 1.0);
  }
}
