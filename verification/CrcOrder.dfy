/** The order of x modulo the generator of VoxLink's CRC is 32767: shifting a one through the
    register brings it back after 32767 shifts, and not before. */
module CrcOrder {
  import opened Crc16

  const T := true
  const F := false

  /** The register as a polynomial: x to the power 0, and to the power 15. */
  const ONE: Register := [F, F, F, F, F, F, F, F, F, F, F, F, F, F, F, T]
  const TOP: Register := [T, F, F, F, F, F, F, F, F, F, F, F, F, F, F, F]

  const ORDER := 32767

  // ---------------------------------------------------------------------
  // Powers of x by squaring
  // ---------------------------------------------------------------------

  /** s is the square of r modulo the generator: each bit i moves to x to the power 2 i. */
  ghost predicate Squares(r: Register, s: Register) {
    && s[0] == r[2]
    && s[1] == (((r[2] != r[4]) != r[6]) != r[8])
    && s[2] == r[3]
    && s[3] == (((r[3] != r[5]) != r[7]) != r[9])
    && s[4] == ((r[0] != r[2]) != r[4])
    && s[5] == ((r[0] != r[2]) != r[10])
    && s[6] == ((r[1] != r[3]) != r[5])
    && s[7] == (((r[0] != r[1]) != r[3]) != r[11])
    && s[8] == (((r[0] != r[2]) != r[4]) != r[6])
    && s[9] == ((((r[0] != r[1]) != r[2]) != r[4]) != r[12])
    && s[10] == (((r[1] != r[3]) != r[5]) != r[7])
    && s[11] == (((r[1] != r[3]) != r[5]) != r[13])
    && s[12] == r[0]
    && s[13] == ((((r[0] != r[2]) != r[4]) != r[6]) != r[14])
    && s[14] == r[1]
    && s[15] == ((((r[1] != r[3]) != r[5]) != r[7]) != r[15])
  }

  lemma SquareIsUnique(r: Register, s: Register, t: Register)
    requires Squares(r, s) && Squares(r, t)
    ensures s == t
  {
  }

  lemma SquareTaps(r: Register, s: Register, q: Register, q1: Register, q2: Register)
    requires OneShift(r, s) && Squares(r, q) && OneShift(q, q1) && OneShift(q1, q2)
    ensures Squares(s, q2)
  {
  }

  /** Two shifts of the square square one shift. */
  lemma SquareShift(r: Register, s: Register)
    requires Squares(r, s)
    ensures Squares(Shift(r), Shift(Shift(s)))
  {
    hide Shift, Squares, OneShift;
    ShiftTaps(r);
    ShiftTaps(s);
    ShiftTaps(Shift(s));
    SquareTaps(r, Shift(r), s, Shift(s), Shift(Shift(s)));
  }

  lemma {:induction false} ShiftsSquare(r: Register, s: Register, n: nat)
    requires Squares(r, s)
    ensures Squares(Shifts(r, n), Shifts(s, 2 * n))
    decreases n
  {
    hide Shift, Squares;
    if n > 0 {
      SquareShift(r, s);
      ShiftsSquare(Shift(r), Shift(Shift(s)), n - 1);
      assert Shifts(s, 2 * n) == Shifts(Shift(s), 2 * n - 1);
    }
  }

  /** x to the power n. */
  function Power(n: nat): Register {
    Shifts(ONE, n)
  }

  lemma LastShift(r: Register, n: nat)
    ensures Shifts(r, n + 1) == Shift(Shifts(r, n))
  {
    hide Shift;
    ShiftsAdd(r, n, 1);
    assert Shifts(Shifts(r, n), 1) == Shift(Shifts(r, n));
  }

  /** Squaring doubles the power. */
  lemma Doubles(n: nat, r: Register, s: Register)
    requires Power(n) == r && Squares(r, s)
    ensures Power(2 * n) == s
  {
    hide Shifts;
    assert Squares(ONE, ONE);
    ShiftsSquare(ONE, ONE, n);
    SquareIsUnique(r, s, Power(2 * n));
  }

  lemma DoublesAndOne(n: nat, r: Register, s: Register, t: Register)
    requires Power(n) == r && Squares(r, s) && OneShift(s, t)
    ensures Power(2 * n + 1) == t
  {
    hide Shifts, Squares;
    Doubles(n, r, s);
    LastShift(ONE, 2 * n);
    ShiftTaps(s);
  }

  // ---------------------------------------------------------------------
  // The order of x
  // ---------------------------------------------------------------------

  /** x to the power n is 1. */
  predicate Period(n: nat) {
    Power(n) == ONE
  }

  lemma PeriodSum(a: nat, b: nat)
    requires Period(a)
    ensures Period(a + b) <==> Period(b)
  {
    ShiftsAdd(ONE, a, b);
  }

  lemma {:induction false} PeriodTimes(a: nat, q: nat)
    requires Period(a)
    ensures Period(q * a)
    decreases q
  {
    if q > 0 {
      hide Period;
      assert q * a == a + (q - 1) * a;
      PeriodTimes(a, q - 1);
      PeriodSum(a, (q - 1) * a);
    }
  }

  // x to the powers 32768, 217, 1057 and 4681, by doubling

  lemma PowerAt0()
    ensures Power(0) == ONE
  {
  }

  lemma PowerAt1()
    ensures Power(1) == [F, F, F, F, F, F, F, F, F, F, F, F, F, F, T, F]
  {
    PowerAt0();
    LastShift(ONE, 0);
  }

  lemma PowerAt32()
    ensures Power(32) == [F, F, T, T, F, T, T, T, F, F, T, T, F, F, F, F]
  {
    hide Shifts, Power;
    PowerAt1();
    var p1: Register := [F, F, F, F, F, F, F, F, F, F, F, F, F, F, T, F];
    var p2: Register := [F, F, F, F, F, F, F, F, F, F, F, F, F, T, F, F];
    Doubles(1, p1, p2);
    var p4: Register := [F, F, F, F, F, F, F, F, F, F, F, T, F, F, F, F];
    Doubles(2, p2, p4);
    var p8: Register := [F, F, F, F, F, F, F, T, F, F, F, F, F, F, F, F];
    Doubles(4, p4, p8);
    var p16: Register := [F, F, F, T, F, F, F, F, F, F, T, F, F, F, F, T];
    Doubles(8, p8, p16);
    var p32: Register := [F, F, T, T, F, T, T, T, F, F, T, T, F, F, F, F];
    Doubles(16, p16, p32);
  }

  lemma PowerAt1024()
    ensures Power(1024) == [F, F, T, T, F, T, T, F, T, T, F, F, F, T, F, F]
  {
    hide Shifts, Power;
    PowerAt32();
    var p32: Register := [F, F, T, T, F, T, T, T, F, F, T, T, F, F, F, F];
    var p64: Register := [T, F, T, T, T, F, F, F, F, T, T, F, F, F, F, T];
    Doubles(32, p32, p64);
    var p128: Register := [T, F, T, F, T, T, T, F, T, T, T, T, T, T, F, F];
    Doubles(64, p64, p128);
    var p256: Register := [T, F, F, F, T, T, T, F, F, F, T, F, T, F, F, T];
    Doubles(128, p128, p256);
    var p512: Register := [F, F, F, T, F, F, T, T, T, T, T, T, T, T, F, F];
    Doubles(256, p256, p512);
    var p1024: Register := [F, F, T, T, F, T, T, F, T, T, F, F, F, T, F, F];
    Doubles(512, p512, p1024);
  }

  lemma PowerAtOrder()
    ensures Power(32768) == [F, F, F, F, F, F, F, F, F, F, F, F, F, F, T, F]
  {
    hide Shifts, Power;
    PowerAt1024();
    var p1024: Register := [F, F, T, T, F, T, T, F, T, T, F, F, F, T, F, F];
    var p2048: Register := [T, T, T, T, T, T, F, T, F, T, F, T, F, F, F, F];
    Doubles(1024, p1024, p2048);
    var p4096: Register := [T, F, T, F, T, F, T, F, T, F, F, T, T, T, T, F];
    Doubles(2048, p2048, p4096);
    var p8192: Register := [T, F, F, F, T, F, F, F, F, F, F, T, T, T, F, F];
    Doubles(4096, p4096, p8192);
    var p16384: Register := [F, T, F, F, F, T, F, F, F, T, F, T, T, F, F, F];
    Doubles(8192, p8192, p16384);
    var p32768: Register := [F, F, F, F, F, F, F, F, F, F, F, F, F, F, T, F];
    Doubles(16384, p16384, p32768);
  }

  lemma PowerAt27()
    ensures Power(27) == [T, F, F, F, T, F, F, T, T, F, T, F, T, F, F, T]
  {
    hide Shifts, Power;
    PowerAt1();
    var p1: Register := [F, F, F, F, F, F, F, F, F, F, F, F, F, F, T, F];
    var q2: Register := [F, F, F, F, F, F, F, F, F, F, F, F, F, T, F, F];
    var p3: Register := [F, F, F, F, F, F, F, F, F, F, F, F, T, F, F, F];
    DoublesAndOne(1, p1, q2, p3);
    var p6: Register := [F, F, F, F, F, F, F, F, F, T, F, F, F, F, F, F];
    Doubles(3, p3, p6);
    var q12: Register := [F, F, F, T, F, F, F, F, F, F, F, F, F, F, F, F];
    var p13: Register := [F, F, T, F, F, F, F, F, F, F, F, F, F, F, F, F];
    DoublesAndOne(6, p6, q12, p13);
    var q26: Register := [T, T, F, F, T, T, F, F, T, T, F, F, F, T, F, F];
    var p27: Register := [T, F, F, F, T, F, F, T, T, F, T, F, T, F, F, T];
    DoublesAndOne(13, p13, q26, p27);
  }

  lemma PowerAt217()
    ensures Power(217) != ONE
  {
    hide Shifts, Power;
    PowerAt27();
    var p27: Register := [T, F, F, F, T, F, F, T, T, F, T, F, T, F, F, T];
    var p54: Register := [F, F, F, T, F, F, F, T, F, T, T, F, T, F, F, F];
    Doubles(27, p27, p54);
    var p108: Register := [F, F, T, T, F, T, T, T, F, T, F, T, F, F, F, F];
    Doubles(54, p54, p108);
    var q216: Register := [T, F, T, F, T, T, F, F, F, T, T, F, F, F, F, T];
    var p217: Register := [F, T, F, F, T, F, F, F, T, T, T, F, F, F, T, T];
    DoublesAndOne(108, p108, q216, p217);
  }

  lemma PowerAt33()
    ensures Power(33) == [F, T, T, F, T, T, T, F, F, T, T, F, F, F, F, F]
  {
    hide Shifts, Power;
    PowerAt1();
    var p1: Register := [F, F, F, F, F, F, F, F, F, F, F, F, F, F, T, F];
    var p2: Register := [F, F, F, F, F, F, F, F, F, F, F, F, F, T, F, F];
    Doubles(1, p1, p2);
    var p4: Register := [F, F, F, F, F, F, F, F, F, F, F, T, F, F, F, F];
    Doubles(2, p2, p4);
    var p8: Register := [F, F, F, F, F, F, F, T, F, F, F, F, F, F, F, F];
    Doubles(4, p4, p8);
    var p16: Register := [F, F, F, T, F, F, F, F, F, F, T, F, F, F, F, T];
    Doubles(8, p8, p16);
    var q32: Register := [F, F, T, T, F, T, T, T, F, F, T, T, F, F, F, F];
    var p33: Register := [F, T, T, F, T, T, T, F, F, T, T, F, F, F, F, F];
    DoublesAndOne(16, p16, q32, p33);
  }

  lemma PowerAt1057()
    ensures Power(1057) != ONE
  {
    hide Shifts, Power;
    PowerAt33();
    var p33: Register := [F, T, T, F, T, T, T, F, F, T, T, F, F, F, F, F];
    var p66: Register := [T, T, F, F, F, F, F, T, T, T, F, F, F, T, T, F];
    Doubles(33, p33, p66);
    var p132: Register := [F, T, F, F, T, T, T, F, T, F, F, F, T, F, T, F];
    Doubles(66, p66, p132);
    var p264: Register := [F, T, F, T, T, F, F, T, F, T, F, F, F, T, T, F];
    Doubles(132, p132, p264);
    var p528: Register := [F, T, T, T, T, F, F, F, T, F, T, T, F, F, T, T];
    Doubles(264, p264, p528);
    var q1056: Register := [T, T, T, T, F, F, F, T, F, T, F, F, F, T, T, T];
    var p1057: Register := [T, T, T, T, F, F, T, F, T, F, T, F, T, T, T, T];
    DoublesAndOne(528, p528, q1056, p1057);
  }

  lemma PowerAt73()
    ensures Power(73) == [T, F, F, F, T, T, T, T, T, F, T, F, F, T, T, F]
  {
    hide Shifts, Power;
    PowerAt1();
    var p1: Register := [F, F, F, F, F, F, F, F, F, F, F, F, F, F, T, F];
    var p2: Register := [F, F, F, F, F, F, F, F, F, F, F, F, F, T, F, F];
    Doubles(1, p1, p2);
    var p4: Register := [F, F, F, F, F, F, F, F, F, F, F, T, F, F, F, F];
    Doubles(2, p2, p4);
    var q8: Register := [F, F, F, F, F, F, F, T, F, F, F, F, F, F, F, F];
    var p9: Register := [F, F, F, F, F, F, T, F, F, F, F, F, F, F, F, F];
    DoublesAndOne(4, p4, q8, p9);
    var p18: Register := [F, T, F, F, F, F, F, F, T, F, F, F, F, T, F, F];
    Doubles(9, p9, p18);
    var p36: Register := [F, T, F, F, F, F, T, T, F, T, T, F, F, F, T, T];
    Doubles(18, p18, p36);
    var q72: Register := [F, T, F, F, F, T, T, T, T, T, F, T, F, F, T, T];
    var p73: Register := [T, F, F, F, T, T, T, T, T, F, T, F, F, T, T, F];
    DoublesAndOne(36, p36, q72, p73);
  }

  lemma PowerAt4681()
    ensures Power(4681) != ONE
  {
    hide Shifts, Power;
    PowerAt73();
    var p73: Register := [T, F, F, F, T, T, T, T, T, F, T, F, F, T, T, F];
    var p146: Register := [F, T, F, F, F, F, T, T, T, F, F, F, T, F, F, F];
    Doubles(73, p73, p146);
    var p292: Register := [F, F, F, T, F, F, T, T, T, F, F, T, F, T, T, F];
    Doubles(146, p146, p292);
    var q584: Register := [F, F, T, F, F, F, T, F, T, F, F, F, F, F, F, F];
    var p585: Register := [F, T, F, F, F, T, F, T, F, F, F, F, F, F, F, F];
    DoublesAndOne(292, p292, q584, p585);
    var p1170: Register := [F, F, F, F, F, F, F, T, F, T, T, F, F, F, T, T];
    Doubles(585, p585, p1170);
    var p2340: Register := [F, F, F, F, F, T, F, F, F, F, T, F, F, T, F, F];
    Doubles(1170, p1170, p2340);
    var q4680: Register := [F, F, F, T, F, T, T, F, F, F, T, F, F, F, F, T];
    var p4681: Register := [F, F, T, F, T, T, F, F, F, T, F, F, F, F, T, F];
    DoublesAndOne(2340, p2340, q4680, p4681);
  }

  lemma QuotientsAreNoPeriods()
    ensures !Period(217) && !Period(1057) && !Period(4681)
  {
    hide Power;
    PowerAt217();
    PowerAt1057();
    PowerAt4681();
  }

  lemma OrderIsPeriod()
    ensures Period(ORDER)
  {
    hide Shift, Shifts;
    PowerAtOrder();
    LastShift(ONE, ORDER);
    PowerAt1();
    LastShift(ONE, 0);
    PowerAt0();
    ShiftInjective(Power(ORDER), ONE);
  }

  /** 32767 is 7 times 31 times 151. */
  lemma ProductIsOrder(m: nat, k: nat)
    requires m * k == ORDER
    ensures m == ORDER || m == 4681 || m == 1057 || m == 217 || m == 1 || m == 7 || m == 31 || m == 151
  {
  }

  lemma LeastPeriod(d: nat) returns (m: nat)
    requires d > 0 && Period(d)
    ensures 0 < m <= d && Period(m)
    ensures forall i: nat :: 0 < i < m ==> !Period(i)
  {
    hide Period;
    m := 1;
    while !Period(m)
      invariant 0 < m <= d
      invariant forall i: nat :: 0 < i < m ==> !Period(i)
      decreases d - m
    {
      m := m + 1;
    }
  }

  /** The least period divides the order, */
  lemma DividesOrder(m: nat)
    requires 0 < m < ORDER && Period(m)
    requires forall i: nat :: 0 < i < m ==> !Period(i)
    ensures m == 4681 || m == 1057 || m == 217 || m == 1 || m == 7 || m == 31 || m == 151
  {
    hide Period;
    var k, r := ORDER / m, ORDER % m;
    OrderIsPeriod();
    PeriodTimes(m, k);
    PeriodSum(k * m, r);
    assert k * m + r == ORDER;
    ProductIsOrder(m, k);
  }

  /** and no proper divisor is a period. */
  lemma NoSmallerPeriod(d: nat)
    requires 0 < d < ORDER
    ensures !Period(d)
  {
    hide Period;
    if Period(d) {
      var m := LeastPeriod(d);
      DividesOrder(m);
      QuotientsAreNoPeriods();
      if m == 151 {
        PeriodTimes(151, 7);
      } else {
        assert m == 1 || m == 7 || m == 31;
        PeriodTimes(m, 217 / m);
      }
    }
  }

  /** x to the power n is 1 exactly for the multiples of 32767. */
  lemma PeriodIff(n: nat)
    ensures Period(n) <==> n % ORDER == 0
  {
    hide Period;
    var q, r := n / ORDER, n % ORDER;
    OrderIsPeriod();
    PeriodTimes(ORDER, q);
    PeriodSum(q * ORDER, r);
    if r == 0 {
      PeriodTimes(ORDER, 0);
    } else {
      NoSmallerPeriod(r);
    }
  }
}
