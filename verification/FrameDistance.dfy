/** What the CRC's distance means for VoxLink frames: frames of one size are at least four bits
    apart and some are exactly four apart, and one, two or three damaged bits would pass unnoticed
    only in bodies of more than 4093 bytes. */
module FrameDistance {
  import opened Crc16
  import opened CrcTrailer
  import opened CrcOrder
  import opened CrcParity
  import opened CrcDistance
  import opened VoxLinkCodec

  lemma {:induction false} NoDifferences(a: seq<bool>, b: seq<bool>)
    requires |a| == |b|
    ensures Differences(a, b) == 0 <==> a == b
    decreases |a|
  {
    if a != [] {
      NoDifferences(a[1..], b[1..]);
      assert a == [a[0]] + a[1..] && b == [b[0]] + b[1..];
    }
  }

  lemma UndamagedIsEqual(x: seq<byte>, y: seq<byte>)
    requires |x| == |y|
    ensures DamagedBits(x, y) == 0 <==> x == y
  {
    hide Bits, Differences;
    NoDifferences(Bits(x), Bits(y));
    if Bits(x) == Bits(y) {
      BitsInjective(x, y);
    }
  }

  /** Damage that spares a common front. */
  lemma DamageAfter(front: seq<byte>, x: seq<byte>, y: seq<byte>)
    requires |x| == |y|
    ensures DamagedBits(front + x, front + y) == DamagedBits(x, y)
  {
    hide Bits, Differences;
    BitsConcat(front, x);
    BitsConcat(front, y);
    DifferencesConcat(Bits(front), Bits(x), Bits(front), Bits(y));
    NoDifferences(Bits(front), Bits(front));
  }

  lemma MarksThenRest(f: Frame)
    requires WellFormed(f)
    ensures var crc := Trailer(Checksum(Body(f)));
            FrameBytes(f) == [SOF0, SOF1] + (Body(f) + crc) && Accepts(Body(f), crc)
  {
    hide Accepts, Checksum, Trailer, Body;
    AcceptsOnlyTrailer(Body(f), Trailer(Checksum(Body(f))));
  }

  /** Two different frames of the same wire length are at least four bits apart. */
  lemma FramesFourApart(f: Frame, g: Frame)
    requires WellFormed(f) && WellFormed(g) && |f.payload| == |g.payload| && f != g
    ensures DamagedBits(FrameBytes(f), FrameBytes(g)) >= 4
  {
    hide FrameBytes, Accepts, Checksum, Trailer, Body, DamagedBits;
    var crc, crc' := Trailer(Checksum(Body(f))), Trailer(Checksum(Body(g)));
    MarksThenRest(f);
    MarksThenRest(g);
    DamageAfter([SOF0, SOF1], Body(f) + crc, Body(g) + crc');
    UndamagedIsEqual(FrameBytes(f), FrameBytes(g));
    if FrameBytes(f) == FrameBytes(g) {
      PrefixFree(f, g);
    }
    if 1 <= DamagedBits(Body(f) + crc, Body(g) + crc') <= 3 {
      SmallDamageRejected(Body(f), crc, Body(g), crc');
    }
  }

  /** So a frame with one, two or three damaged bits, wherever they lie, never decodes as a frame
      of its size. */
  lemma SmallDamagedFrame(f: Frame, y: seq<byte>)
    requires WellFormed(f) && |y| == |FrameBytes(f)|
    requires 1 <= DamagedBits(FrameBytes(f), y) <= 3
    ensures !(Decode(y).Decoded? && Decode(y).consumed == |y|)
  {
    hide FrameBytes, Decode, DamagedBits;
    if Decode(y).Decoded? && Decode(y).consumed == |y| {
      FrameBytesDecode(y);
      assert y[..|y|] == y;
      UndamagedIsEqual(y, y);
      FramesFourApart(f, Decode(y).frame);
    }
  }

  // ---------------------------------------------------------------------
  // Four bits can pass
  // ---------------------------------------------------------------------

  function TurnedFrame(f: Frame): (g: Frame)
    requires WellFormed(f) && f.payload != []
    ensures WellFormed(g) && |g.payload| == |f.payload|
  {
    var n := |f.payload| - 1;
    f.(payload := f.payload[..n] + [TurnLow(f.payload[n])])
  }

  lemma TurnedBody(f: Frame) returns (front: seq<byte>, b: byte)
    requires WellFormed(f) && f.payload != []
    ensures Body(f) == front + [b] && Body(TurnedFrame(f)) == front + [TurnLow(b)]
  {
    hide PutU16, TurnLow;
    var n := |f.payload| - 1;
    front, b := Body(f)[..|Body(f)| - 1], f.payload[n];
    assert f.payload == f.payload[..n] + [b];
  }

  lemma WordBits(body: seq<byte>, crc: seq<byte>)
    requires |crc| == 2 && Accepts(body, crc)
    ensures Bits(Word(body, crc)) == Bits(body) + Checksum(body)
  {
    hide Bits, Checksum, ByteBits;
    BitsConcat(body, [crc[1], crc[0]]);
    TwoByteBits([crc[1], crc[0]]);
  }

  lemma FeedOfLast(n: nat)
    ensures Feed(NONE, Zeros(n) + [true]) == GENERATOR
  {
    hide BitStep, Shift, Shifts, Feed;
    FeedConcat(NONE, Zeros(n), [true]);
    FeedZeros(NONE, n);
    ShiftsOfNone(n);
    FeedTrue(NONE);
    XorWithNone(TOP);
    ShiftOfTop();
  }

  lemma ShiftOfTop()
    ensures Shift(TOP) == GENERATOR
  {
  }

  lemma TurnedChecksum(front: seq<byte>, b: byte)
    ensures Xor(Checksum(front + [b]), Checksum(front + [TurnLow(b)])) == GENERATOR
  {
    hide Bits, Feed, Update, TurnLow, Checksum;
    var x, y := front + [b], front + [TurnLow(b)];
    ChecksumOf(x);
    ChecksumOf(y);
    UpdateIsBitSerial(INITIAL, x);
    UpdateIsBitSerial(INITIAL, y);
    TurnLast(front, b);
    XorToNone(INITIAL, INITIAL);
    FeedLinear(INITIAL, INITIAL, Bits(x), Bits(y));
    FeedOfLast(8 * |front| + 7);
  }

  /** Turning the last payload bit of a frame and the three CRC bits that depend on it gives another
      frame: four bits of damage that no receiver notices. */
  lemma FourBitsPass(f: Frame)
    requires WellFormed(f) && f.payload != []
    ensures DamagedBits(FrameBytes(f), FrameBytes(TurnedFrame(f))) == 4
  {
    hide FrameBytes, Accepts, Checksum, Trailer, Body, DamagedBits, TurnedFrame, Word, Bits, TurnLow;
    var g := TurnedFrame(f);
    var crc, crc' := Trailer(Checksum(Body(f))), Trailer(Checksum(Body(g)));
    MarksThenRest(f);
    MarksThenRest(g);
    DamageAfter([SOF0, SOF1], Body(f) + crc, Body(g) + crc');
    WireDifferences(Body(f), crc, Body(g), crc');
    WordBits(Body(f), crc);
    WordBits(Body(g), crc');
    var front, b := TurnedBody(f);
    TurnedWords(front, b, Word(Body(f), crc), Word(Body(g), crc'));
  }

  lemma TurnedWords(front: seq<byte>, b: byte, x: seq<byte>, y: seq<byte>)
    requires |x| == |y|
    requires Bits(x) == Bits(front + [b]) + Checksum(front + [b])
    requires Bits(y) == Bits(front + [TurnLow(b)]) + Checksum(front + [TurnLow(b)])
    ensures DamagedBits(x, y) == 4
  {
    hide Bits, Checksum, Differences, Ones, TurnLow;
    var u, v := front + [b], front + [TurnLow(b)];
    OnesOfXor(Bits(x), Bits(y));
    XorConcat(Bits(u), Checksum(u), Bits(v), Checksum(v));
    TurnLast(front, b);
    TurnedChecksum(front, b);
    var z := Zeros(8 * |front| + 7);
    OnesConcat(z + [true], GENERATOR);
    OnesConcat(z, [true]);
    OnesOfZeros(8 * |front| + 7);
    OnesOfBit(true);
    OnesOfGenerator();
  }

  // ---------------------------------------------------------------------
  // The length at which two bits can pass
  // ---------------------------------------------------------------------

  /** No damage to one, two or three bits of a body of n bytes and its CRC is accepted. */
  ghost predicate NoticesSmallDamage(n: nat) {
    forall body: seq<byte>, crc: seq<byte>, body': seq<byte>, crc': seq<byte> ::
      |body| == |body'| == n && |crc| == |crc'| == 2 && Accepts(body, crc)
      && 1 <= DamagedBits(body + crc, body' + crc') <= 3
      ==> !Accepts(body', crc')
  }

  /** The first bit of a word and the one 32767 bits after it. */
  lemma TurnTwo(mid: seq<byte>, b: byte, tail: seq<byte>)
    requires |mid| == LONGEST + 1
    ensures var x, y := [0] + (mid + [b] + tail), [128] + (mid + [TurnLow(b)] + tail);
            Xor(Bits(x), Bits(y)) == [true] + Zeros(ORDER - 1) + [true] + Zeros(8 * |tail|)
  {
    hide Bits, ByteBits, TurnLow;
    var u, v := mid + [b], mid + [TurnLow(b)];
    BitsConcat([0], u + tail);
    BitsConcat([128], v + tail);
    BitsConcat(u, tail);
    BitsConcat(v, tail);
    TurnLast(mid, b);
    XorSelf(Bits(tail));
    XorConcat(Bits(u), Bits(tail), Bits(v), Bits(tail));
    BitsOfOne(0);
    BitsOfOne(128);
    FirstBit();
    XorConcat(Bits([0]), Bits(u + tail), Bits([128]), Bits(v + tail));
  }

  lemma FirstBit()
    ensures Xor(ByteBits(0), ByteBits(128)) == [true] + Zeros(7)
  {
  }

  lemma TurnWord(x: seq<byte>) returns (y: seq<byte>)
    requires |x| >= LONGEST + 3 && x[0] == 0
    ensures |y| == |x|
    ensures Xor(Bits(x), Bits(y)) == [true] + Zeros(ORDER - 1) + [true] + Zeros(8 * (|x| - LONGEST - 3))
  {
    hide Bits, TurnLow;
    var last := LONGEST + 2;
    var mid, b, tail := x[1..last], x[last], x[last + 1..];
    y := [128] + (mid + [TurnLow(b)] + tail);
    assert x == [0] + (mid + [b] + tail);
    TurnTwo(mid, b, tail);
  }

  lemma Unword(w: seq<byte>) returns (body: seq<byte>, crc: seq<byte>)
    requires |w| >= 2
    ensures |body| == |w| - 2 && |crc| == 2 && Word(body, crc) == w
  {
    var n := |w| - 2;
    body, crc := w[..n], [w[n + 1], w[n]];
  }

  /** Turning both is two damaged bits, and accepted. */
  lemma TwoBitsPass(n: nat) returns (body: seq<byte>, crc: seq<byte>, body': seq<byte>, crc': seq<byte>)
    requires n > LONGEST
    ensures |body| == |body'| == n && |crc| == |crc'| == 2 && Accepts(body, crc) && Accepts(body', crc')
    ensures DamagedBits(body + crc, body' + crc') == 2
  {
    hide Accepts, Checksum, Trailer, Bits, Feed, DamagedBits;
    body := seq(n, _ => 0);
    crc := Trailer(Checksum(body));
    AcceptsOnlyTrailer(body, crc);
    var x := Word(body, crc);
    assert x[0] == 0;
    var y := TurnWord(x);
    body', crc' := Unword(y);
    hide Word;
    TwoBitsCancelIff(ORDER, 8 * (n - LONGEST - 1));
    DamageAccepted(body, crc, body', crc');
    WireDifferences(body, crc, body', crc');
    TwoOnes(x, y, 8 * (n - LONGEST - 1));
  }

  lemma TwoOnes(x: seq<byte>, y: seq<byte>, n: nat)
    requires |x| == |y| && Xor(Bits(x), Bits(y)) == [true] + Zeros(ORDER - 1) + [true] + Zeros(n)
    ensures DamagedBits(x, y) == 2
  {
    hide Bits, Differences, Ones;
    OnesOfXor(Bits(x), Bits(y));
    var z := Zeros(ORDER - 1);
    OnesConcat([true] + z + [true], Zeros(n));
    OnesConcat([true] + z, [true]);
    OnesConcat([true], z);
    OnesOfBit(true);
    OnesOfZeros(ORDER - 1);
    OnesOfZeros(n);
  }

  /** One, two or three damaged bits are always noticed exactly in bodies of up to 4093 bytes; a
      frame's body has at most 518. */
  lemma NoticesSmallDamageIff(n: nat)
    ensures NoticesSmallDamage(n) <==> n <= LONGEST
  {
    hide Accepts, DamagedBits;
    if n <= LONGEST {
      forall body: seq<byte>, crc: seq<byte>, body': seq<byte>, crc': seq<byte>
        | |body| == |body'| == n && |crc| == |crc'| == 2 && Accepts(body, crc)
          && 1 <= DamagedBits(body + crc, body' + crc') <= 3
        ensures !Accepts(body', crc')
      {
        SmallDamageRejected(body, crc, body', crc');
      }
    } else {
      var body, crc, body', crc' := TwoBitsPass(n);
      assert 1 <= DamagedBits(body + crc, body' + crc') <= 3;
    }
  }
}
