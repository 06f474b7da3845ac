/** The distance of accepted frames: damage to any one, two or three bits of a frame is always
    noticed, and exactly up to which length that is so. Two damaged bits cancel only a multiple
    of 32767 bits apart. */
module CrcDistance {
  import opened Crc16
  import opened CrcTrailer
  import opened CrcOrder
  import opened CrcParity
  import opened VoxLinkCodec

  const NONE: Register := Zeros(16)

  function Ones(z: seq<bool>): nat {
    if z == [] then 0 else (if z[0] then 1 else 0) + Ones(z[1..])
  }

  lemma {:induction false} OnesOfXor(a: seq<bool>, b: seq<bool>)
    requires |a| == |b|
    ensures Ones(Xor(a, b)) == Differences(a, b)
    decreases |a|
  {
    if a != [] {
      assert Xor(a, b)[1..] == Xor(a[1..], b[1..]);
      OnesOfXor(a[1..], b[1..]);
    }
  }

  lemma {:induction false} DifferencesConcat(a: seq<bool>, b: seq<bool>, x: seq<bool>, y: seq<bool>)
    requires |a| == |x| && |b| == |y|
    ensures Differences(a + b, x + y) == Differences(a, x) + Differences(b, y)
    decreases |a|
  {
    if a == [] {
      assert a + b == b && x + y == y;
    } else {
      assert (a + b)[1..] == a[1..] + b && (x + y)[1..] == x[1..] + y;
      DifferencesConcat(a[1..], b, x[1..], y);
    }
  }

  // ---------------------------------------------------------------------
  // Damage as the bits fed into an empty register
  // ---------------------------------------------------------------------

  lemma StepLinear(r: Register, s: Register, a: bool, b: bool)
    ensures BitStep(Xor(r, s), a != b) == Xor(BitStep(r, a), BitStep(s, b))
  {
    hide Shift;
    var x, y := Xor(r, [a] + Zeros(15)), Xor(s, [b] + Zeros(15));
    assert Xor(Xor(r, s), [a != b] + Zeros(15)) == Xor(x, y);
    ShiftLinear(x, y);
  }

  lemma {:induction false} FeedLinear(r: Register, s: Register, x: seq<bool>, y: seq<bool>)
    requires |x| == |y|
    ensures Feed(Xor(r, s), Xor(x, y)) == Xor(Feed(r, x), Feed(s, y))
    decreases |x|
  {
    hide BitStep;
    if x != [] {
      StepLinear(r, s, x[0], y[0]);
      assert Xor(x, y)[1..] == Xor(x[1..], y[1..]);
      FeedLinear(BitStep(r, x[0]), BitStep(s, y[0]), x[1..], y[1..]);
    }
  }

  lemma {:induction false} ShiftsOfNone(n: nat)
    ensures Shifts(NONE, n) == NONE
    decreases n
  {
    if n > 0 {
      assert Shift(NONE) == NONE;
      ShiftsOfNone(n - 1);
    }
  }

  lemma ShiftsToNone(r: Register, n: nat)
    ensures Shifts(r, n) == NONE <==> r == NONE
  {
    ShiftsOfNone(n);
    if Shifts(r, n) == NONE {
      ShiftsInjective(r, NONE, n);
    }
  }

  lemma XorToNone(r: Register, s: Register)
    ensures Xor(r, s) == NONE <==> r == s
  {
    if Xor(r, s) == NONE {
      forall i | 0 <= i < 16 ensures r[i] == s[i] {
        assert !Xor(r, s)[i];
      }
    }
  }

  /** The body and its CRC in the order the register takes them, high byte first. */
  function Word(body: seq<byte>, crc: seq<byte>): (w: seq<byte>)
    requires |crc| == 2
    ensures |w| == |body| + 2
  {
    body + [crc[1], crc[0]]
  }

  /** A receiver accepts exactly the words that leave the register empty. */
  lemma AcceptsIffNone(body: seq<byte>, crc: seq<byte>)
    requires |crc| == 2
    ensures Accepts(body, crc) <==> Feed(INITIAL, Bits(Word(body, crc))) == NONE
  {
    hide Bits, Feed, Shifts, ByteBits, Update;
    var last := [crc[1], crc[0]];
    var c := Feed(INITIAL, Bits(body));
    ChecksumOf(body);
    UpdateIsBitSerial(INITIAL, body);
    BitsConcat(body, last);
    FeedConcat(INITIAL, Bits(body), Bits(last));
    TwoByteBits(last);
    PendingBits(c, Bits(last));
    assert Bits(last) + Zeros(0) == Bits(last);
    ShiftsToNone(Xor(c, Bits(last)), 16);
    XorToNone(c, Bits(last));
  }

  /** So damage to an accepted word goes unnoticed exactly when it leaves an empty register empty. */
  lemma DamageAccepted(body: seq<byte>, crc: seq<byte>, body': seq<byte>, crc': seq<byte>)
    requires |crc| == |crc'| == 2 && |body| == |body'| && Accepts(body, crc)
    ensures Accepts(body', crc') <==> Feed(NONE, Xor(Bits(Word(body, crc)), Bits(Word(body', crc')))) == NONE
  {
    hide Bits, Feed, Accepts, Word;
    var x, y := Bits(Word(body, crc)), Bits(Word(body', crc'));
    AcceptsIffNone(body, crc);
    AcceptsIffNone(body', crc');
    XorToNone(INITIAL, INITIAL);
    FeedLinear(INITIAL, INITIAL, x, y);
    XorToNone(Feed(INITIAL, x), Feed(INITIAL, y));
  }

  /** How many bits of a message were damaged. */
  function DamagedBits(x: seq<byte>, y: seq<byte>): nat
    requires |x| == |y|
  {
    Differences(Bits(x), Bits(y))
  }

  /** The order the CRC's bytes are sent in does not change how many bits differ. */
  lemma WireDifferences(body: seq<byte>, crc: seq<byte>, body': seq<byte>, crc': seq<byte>)
    requires |crc| == |crc'| == 2 && |body| == |body'|
    ensures DamagedBits(body + crc, body' + crc') == DamagedBits(Word(body, crc), Word(body', crc'))
  {
    hide Bits, Differences, ByteBits;
    var last, last' := [crc[1], crc[0]], [crc'[1], crc'[0]];
    BitsConcat(body, crc);
    BitsConcat(body', crc');
    BitsConcat(body, last);
    BitsConcat(body', last');
    DifferencesConcat(Bits(body), Bits(crc), Bits(body'), Bits(crc'));
    DifferencesConcat(Bits(body), Bits(last), Bits(body'), Bits(last'));
    TwoByteBits(crc);
    TwoByteBits(crc');
    TwoByteBits(last);
    TwoByteBits(last');
    DifferencesConcat(ByteBits(crc[0]), ByteBits(crc[1]), ByteBits(crc'[0]), ByteBits(crc'[1]));
    DifferencesConcat(ByteBits(crc[1]), ByteBits(crc[0]), ByteBits(crc'[1]), ByteBits(crc'[0]));
  }

  // ---------------------------------------------------------------------
  // Two damaged bits
  // ---------------------------------------------------------------------

  lemma StepOfFalse(r: Register)
    ensures BitStep(r, false) == Shift(r)
  {
    assert Xor(r, [false] + Zeros(15)) == r;
  }

  lemma StepOfTrue(r: Register)
    ensures BitStep(r, true) == Shift(Xor(r, TOP))
  {
    assert [true] + Zeros(15) == TOP;
  }

  lemma {:induction false} FeedOfNothing(r: Register, z: seq<bool>)
    requires Ones(z) == 0
    ensures Feed(r, z) == Shifts(r, |z|)
    decreases |z|
  {
    hide BitStep, Shift;
    if z != [] {
      StepOfFalse(r);
      FeedOfNothing(Shift(r), z[1..]);
    }
  }

  /** One set bit among those fed: p shifts before it, the rest after. */
  lemma {:induction false} FeedOfOne(r: Register, z: seq<bool>) returns (p: nat)
    requires Ones(z) == 1
    ensures p < |z| && Feed(r, z) == Shifts(Xor(Shifts(r, p), TOP), |z| - p)
    decreases |z|
  {
    hide BitStep, Shift;
    if z[0] {
      p := 0;
      StepOfTrue(r);
      FeedOfNothing(Shift(Xor(r, TOP)), z[1..]);
    } else {
      StepOfFalse(r);
      var q := FeedOfOne(Shift(r), z[1..]);
      p := q + 1;
    }
  }

  /** Two set bits fed into an empty register, d apart. */
  lemma {:induction false} FeedOfTwo(z: seq<bool>) returns (d: nat, e: nat)
    requires Ones(z) == 2
    ensures 0 < d < |z| && Feed(NONE, z) == Shifts(Xor(Shifts(TOP, d), TOP), e)
    decreases |z|
  {
    hide BitStep, Shift;
    if z[0] {
      StepOfTrue(NONE);
      assert Xor(NONE, TOP) == TOP;
      var p := FeedOfOne(Shift(TOP), z[1..]);
      d, e := p + 1, |z[1..]| - p;
    } else {
      StepOfFalse(NONE);
      ShiftsOfNone(1);
      assert Shifts(NONE, 1) == Shift(NONE);
      d, e := FeedOfTwo(z[1..]);
    }
  }

  /** Shifting a bit from the top of the register brings it back there exactly when a shift from
      the bottom would bring it back. */
  lemma TopReturns(d: nat)
    ensures Shifts(TOP, d) == TOP <==> Period(d)
  {
    hide Shift, Shifts;
    PowerIsTop();
    ShiftsAdd(ONE, d, 15);
    ShiftsAdd(ONE, 15, d);
    if Shifts(TOP, d) == TOP {
      ShiftsInjective(Power(d), ONE, 15);
    }
  }

  lemma PowerIsTop()
    ensures Power(15) == TOP
  {
    hide Shift;
    ShiftsAdd(ONE, 8, 7);
    ShiftsAdd(Shifts(ONE, 8), 4, 3);
    ShiftEight(ONE);
    ShiftFour(Shifts(ONE, 8));
    var r := Shifts(Shifts(ONE, 8), 4);
    assert r == [F, F, F, T, F, F, F, F, F, F, F, F, F, F, F, F];
    assert Shifts(r, 3) == Shift(Shift(Shift(r)));
    ShiftTaps(r);
    ShiftTaps(Shift(r));
    ShiftTaps(Shift(Shift(r)));
  }

  /** Two damaged bits are noticed in any word of at most 32767 bits. */
  lemma TwoBitsNoticed(z: seq<bool>)
    requires Ones(z) == 2 && |z| <= ORDER
    ensures Feed(NONE, z) != NONE
  {
    hide Shift, Shifts, Period, Feed;
    var d, e := FeedOfTwo(z);
    ShiftsToNone(Xor(Shifts(TOP, d), TOP), e);
    XorToNone(Shifts(TOP, d), TOP);
    TopReturns(d);
    NoSmallerPeriod(d);
  }

  /** The most body bytes whose bits, with the CRC's, stay within the order. */
  const LONGEST := 4093

  lemma TwoBitDamageRejected(body: seq<byte>, crc: seq<byte>, body': seq<byte>, crc': seq<byte>)
    requires |crc| == |crc'| == 2 && |body| == |body'| <= LONGEST
    requires Accepts(body, crc)
    requires DamagedBits(body + crc, body' + crc') == 2
    ensures !Accepts(body', crc')
  {
    hide *;
    WireDifferences(body, crc, body', crc');
    TwoBitsOfWord(Word(body, crc), Word(body', crc'));
    DamageAccepted(body, crc, body', crc');
  }

  lemma TwoBitsOfWord(x: seq<byte>, y: seq<byte>)
    requires |x| == |y| <= LONGEST + 2 && DamagedBits(x, y) == 2
    ensures Feed(NONE, Xor(Bits(x), Bits(y))) != NONE
  {
    hide Bits, Differences, Feed, Ones;
    OnesOfXor(Bits(x), Bits(y));
    TwoBitsNoticed(Xor(Bits(x), Bits(y)));
  }

  lemma OddBitDamageRejected(body: seq<byte>, crc: seq<byte>, body': seq<byte>, crc': seq<byte>)
    requires |crc| == |crc'| == 2 && |body| == |body'|
    requires Accepts(body, crc)
    requires DamagedBits(body + crc, body' + crc') % 2 == 1
    ensures !Accepts(body', crc')
  {
    hide Bits, Differences, Accepts;
    OddDamageRejected(body, crc, body', crc');
  }

  /** Damage to any one, two or three bits of a body of up to 4093 bytes and its CRC is rejected. */
  lemma SmallDamageRejected(body: seq<byte>, crc: seq<byte>, body': seq<byte>, crc': seq<byte>)
    requires |crc| == |crc'| == 2 && |body| == |body'| <= LONGEST
    requires Accepts(body, crc)
    requires 1 <= DamagedBits(body + crc, body' + crc') <= 3
    ensures !Accepts(body', crc')
  {
    hide *;
    if DamagedBits(body + crc, body' + crc') == 2 {
      TwoBitDamageRejected(body, crc, body', crc');
    } else {
      OddBitDamageRejected(body, crc, body', crc');
    }
  }

  // ---------------------------------------------------------------------
  // Two damaged bits in words of any length
  // ---------------------------------------------------------------------

  lemma {:induction false} FeedZeros(r: Register, n: nat)
    ensures Feed(r, Zeros(n)) == Shifts(r, n)
    decreases n
  {
    hide BitStep, Shift;
    if n > 0 {
      StepOfFalse(r);
      assert Zeros(n)[1..] == Zeros(n - 1);
      FeedZeros(Shift(r), n - 1);
    }
  }

  /** Two damaged bits, d apart, cancel exactly when d is a multiple of 32767. */
  lemma TwoBitsCancelIff(d: nat, n: nat)
    requires d > 0
    ensures Feed(NONE, [true] + Zeros(d - 1) + [true] + Zeros(n)) == NONE <==> d % ORDER == 0
  {
    hide BitStep, Shift, Shifts, Feed, Period;
    var front, back := [true] + Zeros(d - 1), [true] + Zeros(n);
    assert [true] + Zeros(d - 1) + [true] + Zeros(n) == front + back;
    var met := Shifts(TOP, d);
    FeedConcat(NONE, front, back);
    FeedConcat(NONE, [true], Zeros(d - 1));
    FeedTrue(NONE);
    XorWithNone(TOP);
    FeedZeros(Shift(TOP), d - 1);
    ShiftFirst(TOP, d - 1);
    FeedConcat(met, [true], Zeros(n));
    FeedTrue(met);
    FeedZeros(Shift(Xor(met, TOP)), n);
    ShiftFirst(Xor(met, TOP), n);
    ShiftsToNone(Xor(met, TOP), n + 1);
    XorToNone(met, TOP);
    TopReturns(d);
    PeriodIff(d);
  }

  lemma FeedTrue(r: Register)
    ensures Feed(r, [true]) == Shift(Xor(r, TOP))
  {
    hide BitStep, Shift;
    StepOfTrue(r);
    assert [true][1..] == [];
  }

  lemma XorWithNone(r: Register)
    ensures Xor(NONE, r) == r
  {
  }

  lemma ShiftFirst(r: Register, n: nat)
    ensures Shifts(Shift(r), n) == Shifts(r, n + 1)
    ensures n == 0 ==> Shifts(r, 1) == Shift(r)
  {
    hide Shift;
  }

  /** The byte with its lowest bit turned. */
  function TurnLow(b: byte): byte {
    if b % 2 == 1 then b - 1 else b + 1
  }

  lemma XorSelf(a: seq<bool>)
    ensures Xor(a, a) == Zeros(|a|)
  {
  }

  lemma TurnedLow(b: byte)
    ensures Xor(ByteBits(b), ByteBits(TurnLow(b))) == Zeros(7) + [true]
  {
    var front := NatBits(b / 2, 7);
    assert TurnLow(b) / 2 == b / 2;
    assert ByteBits(b) == front + [b % 2 == 1];
    assert ByteBits(TurnLow(b)) == front + [b % 2 == 0];
  }

  lemma BitsOfOne(b: byte)
    ensures Bits([b]) == ByteBits(b)
  {
    hide ByteBits;
    assert [b][1..] == [];
    assert Bits([b]) == ByteBits(b) + [];
  }

  /** Turning the lowest bit of a message's last byte. */
  lemma TurnLast(front: seq<byte>, b: byte)
    ensures Xor(Bits(front + [b]), Bits(front + [TurnLow(b)])) == Zeros(8 * |front| + 7) + [true]
  {
    hide Bits, ByteBits, TurnLow;
    BitsConcat(front, [b]);
    BitsConcat(front, [TurnLow(b)]);
    BitsOfOne(b);
    BitsOfOne(TurnLow(b));
    XorConcat(Bits(front), ByteBits(b), Bits(front), ByteBits(TurnLow(b)));
    XorSelf(Bits(front));
    TurnedLow(b);
  }

  lemma {:induction false} OnesConcat(a: seq<bool>, b: seq<bool>)
    ensures Ones(a + b) == Ones(a) + Ones(b)
    decreases |a|
  {
    if a == [] {
      assert a + b == b;
    } else {
      assert (a + b)[1..] == a[1..] + b;
      OnesConcat(a[1..], b);
    }
  }

  lemma {:induction false} OnesOfZeros(n: nat)
    ensures Ones(Zeros(n)) == 0
    decreases n
  {
    if n > 0 {
      assert Zeros(n)[1..] == Zeros(n - 1);
      OnesOfZeros(n - 1);
    }
  }

  lemma OnesOfBit(b: bool)
    ensures Ones([b]) == if b then 1 else 0
  {
    assert [b][1..] == [];
  }

  lemma OnesOfGenerator()
    ensures Ones(GENERATOR) == 3
  {
    var z3, z6, z4, t := Zeros(3), Zeros(6), Zeros(4), [true];
    assert GENERATOR == z3 + (t + (z6 + (t + (z4 + t))));
    OnesOfZeros(3);
    OnesOfZeros(6);
    OnesOfZeros(4);
    OnesOfBit(true);
    OnesConcat(z4, t);
    OnesConcat(t, z4 + t);
    OnesConcat(z6, t + (z4 + t));
    OnesConcat(t, z6 + (t + (z4 + t)));
    OnesConcat(z3, t + (z6 + (t + (z4 + t))));
  }
}
