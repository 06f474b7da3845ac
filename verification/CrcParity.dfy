/** The parity of accepted frames: the CRC's generator has an even number of terms, so damage to
    an odd number of bits is always noticed, wherever they lie and in whatever order the CRC's
    bytes are sent. */
module CrcParity {
  import opened Crc16
  import opened CrcTrailer
  import opened VoxLinkCodec

  /** Whether an odd number of the bits are set. */
  function Odd(s: seq<bool>): bool {
    if s == [] then false else s[0] != Odd(s[1..])
  }

  lemma {:induction false} OddConcat(a: seq<bool>, b: seq<bool>)
    ensures Odd(a + b) == (Odd(a) != Odd(b))
    decreases |a|
  {
    if a == [] {
      assert a + b == b;
    } else {
      assert (a + b)[1..] == a[1..] + b;
      OddConcat(a[1..], b);
    }
  }

  lemma {:induction false} OddXor(a: seq<bool>, b: seq<bool>)
    requires |a| == |b|
    ensures Odd(Xor(a, b)) == (Odd(a) != Odd(b))
    decreases |a|
  {
    if a != [] {
      assert Xor(a, b)[1..] == Xor(a[1..], b[1..]);
      OddXor(a[1..], b[1..]);
    }
  }

  lemma {:induction false} OddZeros(n: nat)
    ensures !Odd(Zeros(n))
    decreases n
  {
    if n > 0 {
      assert Zeros(n)[1..] == Zeros(n - 1);
      OddZeros(n - 1);
    }
  }

  lemma OddOne(b: bool)
    ensures Odd([b]) == b
  {
    assert [b][1..] == [];
  }

  /** Three taps and the bit shifted out. */
  lemma OddGenerator()
    ensures Odd(GENERATOR)
  {
    var z3, z6, z4, t := Zeros(3), Zeros(6), Zeros(4), [true];
    assert GENERATOR == z3 + (t + (z6 + (t + (z4 + t))));
    OddZeros(3);
    OddZeros(6);
    OddZeros(4);
    OddOne(true);
    OddConcat(z4, t);
    OddConcat(t, z4 + t);
    OddConcat(z6, t + (z4 + t));
    OddConcat(t, z6 + (t + (z4 + t)));
    OddConcat(z3, t + (z6 + (t + (z4 + t))));
  }

  /** Shifting the register keeps its parity. */
  lemma ShiftKeepsParity(r: Register)
    ensures Odd(Shift(r)) == Odd(r)
  {
    hide Odd;
    assert r == [r[0]] + r[1..];
    OddConcat([r[0]], r[1..]);
    OddOne(r[0]);
    OddConcat(r[1..], [false]);
    OddOne(false);
    OddXor(ShiftLeft(r), GENERATOR);
    OddGenerator();
  }

  lemma BitStepParity(r: Register, bit: bool)
    ensures Odd(BitStep(r, bit)) == (Odd(r) != bit)
  {
    hide Odd, Shift;
    ShiftKeepsParity(Xor(r, [bit] + Zeros(15)));
    OddXor(r, [bit] + Zeros(15));
    OddConcat([bit], Zeros(15));
    OddOne(bit);
    OddZeros(15);
  }

  /** The register's parity is that of all the bits fed into it. */
  lemma {:induction false} FeedParity(r: Register, bits: seq<bool>)
    ensures Odd(Feed(r, bits)) == (Odd(r) != Odd(bits))
    decreases |bits|
  {
    hide BitStep;
    if bits != [] {
      BitStepParity(r, bits[0]);
      FeedParity(BitStep(r, bits[0]), bits[1..]);
    }
  }

  lemma OddInitial()
    ensures !Odd(INITIAL)
  {
    var half: seq<bool> := [true, true, true, true, true, true, true, true];
    assert INITIAL == half + half;
    OddConcat(half, half);
  }

  lemma ChecksumParity(body: seq<byte>)
    ensures Odd(Checksum(body)) == Odd(Bits(body))
  {
    hide Odd, Feed, Update, Bits;
    ChecksumOf(body);
    UpdateIsBitSerial(INITIAL, body);
    FeedParity(INITIAL, Bits(body));
    OddInitial();
  }

  /** Whatever a receiver accepts has an even number of bits set in body and CRC together. */
  lemma AcceptedIsEven(body: seq<byte>, crc: seq<byte>)
    requires |crc| == 2 && Accepts(body, crc)
    ensures !Odd(Bits(body + crc))
  {
    hide Odd, Bits, Checksum, NatBits;
    ChecksumParity(body);
    TwoByteBits(crc);
    OddConcat(ByteBits(crc[1]), ByteBits(crc[0]));
    OddConcat(ByteBits(crc[0]), ByteBits(crc[1]));
    BitsConcat(body, crc);
    OddConcat(Bits(body), Bits(crc));
  }

  /** How many positions two bit strings differ in. */
  function Differences(a: seq<bool>, b: seq<bool>): nat
    requires |a| == |b|
  {
    if a == [] then 0 else (if a[0] != b[0] then 1 else 0) + Differences(a[1..], b[1..])
  }

  lemma {:induction false} DifferencesParity(a: seq<bool>, b: seq<bool>)
    requires |a| == |b|
    ensures Differences(a, b) % 2 == 1 <==> Odd(a) != Odd(b)
    decreases |a|
  {
    if a != [] {
      DifferencesParity(a[1..], b[1..]);
    }
  }

  /** Damage to any odd number of bits of body and CRC is rejected, for bodies of any length. */
  lemma OddDamageRejected(body: seq<byte>, crc: seq<byte>, body': seq<byte>, crc': seq<byte>)
    requires |crc| == |crc'| == 2 && |body| == |body'|
    requires Accepts(body, crc)
    requires Differences(Bits(body + crc), Bits(body' + crc')) % 2 == 1
    ensures !Accepts(body', crc')
  {
    hide Odd, Bits, Accepts, Differences;
    AcceptedIsEven(body, crc);
    DifferencesParity(Bits(body + crc), Bits(body' + crc'));
    if Accepts(body', crc') {
      AcceptedIsEven(body', crc');
    }
  }

  /** Two frames of the same wire length are an even number of bits apart: no odd damage turns one
      sound frame into another. */
  lemma FramesEvenlyApart(f: Frame, g: Frame)
    requires WellFormed(f) && WellFormed(g) && |f.payload| == |g.payload|
    ensures Differences(Bits(FrameBytes(f)), Bits(FrameBytes(g))) % 2 == 0
  {
    hide Odd, Bits, Accepts, Differences, Checksum, Trailer, Body;
    FrameParity(f);
    FrameParity(g);
    DifferencesParity(Bits(FrameBytes(f)), Bits(FrameBytes(g)));
  }

  lemma FrameParity(f: Frame)
    requires WellFormed(f)
    ensures Odd(Bits(FrameBytes(f))) == Odd(Bits([SOF0, SOF1]))
  {
    hide Odd, Bits, Accepts, Checksum, Trailer, Body;
    var crc := Trailer(Checksum(Body(f)));
    AcceptsOnlyTrailer(Body(f), crc);
    AcceptedIsEven(Body(f), crc);
    assert FrameBytes(f) == [SOF0, SOF1] + (Body(f) + crc);
    BitsConcat([SOF0, SOF1], Body(f) + crc);
    OddConcat(Bits([SOF0, SOF1]), Bits(Body(f) + crc));
  }

  /** So damage to any odd number of a frame's bits never yields a frame of its size, whatever the
      damage hits, start marks and length included. */
  lemma OddDamagedFrame(f: Frame, y: seq<byte>)
    requires WellFormed(f) && |y| == |FrameBytes(f)|
    requires Differences(Bits(FrameBytes(f)), Bits(y)) % 2 == 1
    ensures !(Decode(y).Decoded? && Decode(y).consumed == |y|)
  {
    hide Bits, Differences, Decode, Checksum, Trailer, Body;
    if Decode(y).Decoded? && Decode(y).consumed == |y| {
      FrameBytesDecode(y);
      assert y[..|y|] == y;
      FramesEvenlyApart(f, Decode(y).frame);
    }
  }
}
