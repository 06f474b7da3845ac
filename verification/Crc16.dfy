/** CRC-16/CCITT-FALSE of VoxLink v1: the byte-wise update of the codec, the
    bit-serial register it implements, and the error bursts that register detects.
    The 16-bit register is kept as its bits, most significant first, so that XOR
    and shifts are exact. */
module Crc16 {
  import opened Arithmetic

  type byte = x: int | 0 <= x < 256

  function Zeros(n: nat): (s: seq<bool>)
    ensures |s| == n
  {
    seq(n, _ => false)
  }

  type Register = r: seq<bool> | |r| == 16 witness Zeros(16)

  const INITIAL: Register := [true, true, true, true, true, true, true, true,
                              true, true, true, true, true, true, true, true]

  // x^16 + x^12 + x^5 + 1 without its leading term: 0x1021
  const GENERATOR: Register := [false, false, false, true, false, false, false, false,
                                false, false, true, false, false, false, false, true]

  function Xor(a: seq<bool>, b: seq<bool>): (s: seq<bool>)
    requires |a| == |b|
    ensures |s| == |a|
  {
    seq(|a|, i requires 0 <= i < |a| => a[i] != b[i])
  }

  function ShiftLeft(r: Register): Register {
    r[1..] + [false]
  }

  /** One turn of the inner loop: shift left, and subtract the generator on carry. */
  function Shift(r: Register): Register {
    if r[0] then Xor(ShiftLeft(r), GENERATOR) else ShiftLeft(r)
  }

  function Shifts(r: Register, n: nat): Register
    decreases n
  {
    if n == 0 then r else Shifts(Shift(r), n - 1)
  }

  /** The low `width` bits of n, most significant first. */
  function NatBits(n: nat, width: nat): (s: seq<bool>)
    ensures |s| == width
    decreases width
  {
    if width == 0 then [] else NatBits(n / 2, width - 1) + [n % 2 == 1]
  }

  function NatOf(s: seq<bool>): nat {
    if s == [] then 0 else 2 * NatOf(s[..|s| - 1]) + (if s[|s| - 1] then 1 else 0)
  }

  function ByteBits(b: byte): (s: seq<bool>)
    ensures |s| == 8
  {
    NatBits(b, 8)
  }

  function UpdateByte(r: Register, b: byte): Register {
    Shifts(Xor(r, ByteBits(b) + Zeros(8)), 8)
  }

  function Update(r: Register, data: seq<byte>): Register
    decreases |data|
  {
    if data == [] then r else Update(UpdateByte(r, data[0]), data[1..])
  }

  function Checksum(data: seq<byte>): Register {
    Update(INITIAL, data)
  }

  /** The codec's two nested loops. */
  method Crc16Update(initial: Register, data: seq<byte>) returns (crc: Register)
    ensures crc == Update(initial, data)
  {
    crc := initial;
    for i := 0 to |data|
      invariant Update(crc, data[i..]) == Update(initial, data)
    {
      crc := Crc16Byte(crc, data[i]);
      assert data[i..][1..] == data[i + 1..];
    }
  }

  method Crc16Byte(initial: Register, b: byte) returns (crc: Register)
    ensures crc == UpdateByte(initial, b)
  {
    crc := Xor(initial, ByteBits(b) + Zeros(8));
    for bit := 0 to 8
      invariant Shifts(crc, 8 - bit) == UpdateByte(initial, b)
    {
      ghost var before := crc;
      if crc[0] {
        crc := Xor(ShiftLeft(crc), GENERATOR);
      } else {
        crc := ShiftLeft(crc);
      }
      assert crc == Shift(before);
    }
  }

  lemma {:induction false} UpdateConcat(r: Register, a: seq<byte>, b: seq<byte>)
    ensures Update(r, a + b) == Update(Update(r, a), b)
    decreases |a|
  {
    if a == [] {
      assert a + b == b;
    } else {
      assert (a + b)[1..] == a[1..] + b;
      UpdateConcat(UpdateByte(r, a[0]), a[1..], b);
    }
  }

  // ---------------------------------------------------------------------
  // The bit-serial register, fed with the message most significant bit first
  // ---------------------------------------------------------------------

  function Bits(data: seq<byte>): (s: seq<bool>)
    ensures |s| == 8 * |data|
  {
    if data == [] then [] else ByteBits(data[0]) + Bits(data[1..])
  }

  function BitStep(r: Register, bit: bool): Register {
    Shift(Xor(r, [bit] + Zeros(15)))
  }

  function Feed(r: Register, bits: seq<bool>): Register
    decreases |bits|
  {
    if bits == [] then r else Feed(BitStep(r, bits[0]), bits[1..])
  }

  lemma {:induction false} FeedConcat(r: Register, a: seq<bool>, b: seq<bool>)
    ensures Feed(r, a + b) == Feed(Feed(r, a), b)
    decreases |a|
  {
    if a == [] {
      assert a + b == b;
    } else {
      assert (a + b)[1..] == a[1..] + b;
      FeedConcat(BitStep(r, a[0]), a[1..], b);
    }
  }

  lemma {:induction false} BitsConcat(a: seq<byte>, b: seq<byte>)
    ensures Bits(a + b) == Bits(a) + Bits(b)
    decreases |a|
  {
    if a == [] {
      assert a + b == b;
    } else {
      assert (a + b)[1..] == a[1..] + b;
      BitsConcat(a[1..], b);
    }
  }

  /** Shifting loses nothing. */
  lemma ShiftInjective(x: Register, y: Register)
    requires Shift(x) == Shift(y)
    ensures x == y
  {
    assert Shift(x)[15] == x[0] && Shift(y)[15] == y[0];
    forall i | 0 < i < 16
      ensures x[i] == y[i]
    {
      assert Shift(x)[i - 1] == (x[i] != (x[0] && GENERATOR[i - 1]));
      assert Shift(y)[i - 1] == (y[i] != (y[0] && GENERATOR[i - 1]));
    }
  }

  lemma {:induction false} ShiftsInjective(x: Register, y: Register, n: nat)
    requires Shifts(x, n) == Shifts(y, n)
    ensures x == y
    decreases n
  {
    if n > 0 {
      ShiftsInjective(Shift(x), Shift(y), n - 1);
      ShiftInjective(x, y);
    }
  }

  /** Moves one pending message bit from the register to the input. */
  lemma PeelBit(r: Register, w: Register)
    ensures Shift(Xor(r, w)) == Xor(BitStep(r, w[0]), ShiftLeft(w))
  {
  }

  /** n shifts of a register holding n pending message bits feed exactly those bits. */
  lemma {:induction false} PendingBits(r: Register, bits: seq<bool>)
    requires |bits| <= 16
    ensures Shifts(Xor(r, bits + Zeros(16 - |bits|)), |bits|) == Feed(r, bits)
    decreases |bits|
  {
    var w := bits + Zeros(16 - |bits|);
    if bits == [] {
      assert Xor(r, w) == r;
    } else {
      PeelBit(r, w);
      assert ShiftLeft(w) == bits[1..] + Zeros(17 - |bits|);
      PendingBits(BitStep(r, bits[0]), bits[1..]);
    }
  }

  /** The byte-wise table-free update and the bit-serial register agree on every message. */
  lemma {:induction false} UpdateIsBitSerial(r: Register, data: seq<byte>)
    ensures Update(r, data) == Feed(r, Bits(data))
    decreases |data|
  {
    if data != [] {
      PendingBits(r, ByteBits(data[0]));
      UpdateIsBitSerial(UpdateByte(r, data[0]), data[1..]);
      FeedConcat(r, ByteBits(data[0]), Bits(data[1..]));
    }
  }

  // ---------------------------------------------------------------------
  // Bursts
  // ---------------------------------------------------------------------

  lemma {:induction false} FeedInjective(x: Register, y: Register, bits: seq<bool>)
    requires Feed(x, bits) == Feed(y, bits)
    ensures x == y
    decreases |bits|
  {
    if bits != [] {
      var top := [bits[0]] + Zeros(15);
      FeedInjective(BitStep(x, bits[0]), BitStep(y, bits[0]), bits[1..]);
      ShiftInjective(Xor(x, top), Xor(y, top));
      XorCancels(x, y, top);
    }
  }

  lemma XorCancels(x: seq<bool>, y: seq<bool>, z: seq<bool>)
    requires |x| == |y| == |z| && Xor(x, z) == Xor(y, z)
    ensures x == y
  {
    forall i | 0 <= i < |x|
      ensures x[i] == y[i]
    {
      assert Xor(x, z)[i] == Xor(y, z)[i];
    }
  }

  /** At most 16 bits fed into equal registers leave different registers if the bits differ. */
  lemma ShortFeedInjective(r: Register, x: seq<bool>, y: seq<bool>)
    requires |x| == |y| <= 16
    requires Feed(r, x) == Feed(r, y)
    ensures x == y
  {
    var z := Zeros(16 - |x|);
    PendingBits(r, x);
    PendingBits(r, y);
    ShiftsInjective(Xor(r, x + z), Xor(r, y + z), |x|);
    forall i | 0 <= i < |x|
      ensures x[i] == y[i]
    {
      assert Xor(r, x + z)[i] == Xor(r, y + z)[i];
    }
  }

  /** The messages agree outside the 16 bits from p on. */
  ghost predicate AgreeOutsideBurst(x: seq<bool>, y: seq<bool>, p: nat) {
    |x| == |y| && forall i :: 0 <= i < |x| && !(p <= i < p + 16) ==> x[i] == y[i]
  }

  /** Two bit strings that differ only within 16 consecutive bits never leave the same register. */
  lemma FeedDetectsBurst(r: Register, x: seq<bool>, y: seq<bool>, p: nat)
    requires AgreeOutsideBurst(x, y, p)
    requires Feed(r, x) == Feed(r, y)
    ensures x == y
  {
    var a := if p <= |x| then p else |x|;
    var b := if p + 16 <= |x| then p + 16 else |x|;
    assert x == x[..a] + x[a..b] + x[b..];
    assert y == x[..a] + y[a..b] + x[b..];
    FeedConcat(r, x[..a] + x[a..b], x[b..]);
    FeedConcat(r, x[..a] + y[a..b], x[b..]);
    FeedConcat(r, x[..a], x[a..b]);
    FeedConcat(r, x[..a], y[a..b]);
    var start := Feed(r, x[..a]);
    FeedInjective(Feed(start, x[a..b]), Feed(start, y[a..b]), x[b..]);
    ShortFeedInjective(start, x[a..b], y[a..b]);
  }

  lemma {:induction false} NatOfBits(n: nat, width: nat)
    requires n < Power2(width)
    ensures NatOf(NatBits(n, width)) == n
  {
    if width > 0 {
      NatOfBits(n / 2, width - 1);
      assert NatBits(n, width)[..width - 1] == NatBits(n / 2, width - 1);
    }
  }

  lemma {:induction false} BitsOfNat(s: seq<bool>)
    ensures NatOf(s) < Power2(|s|)
    ensures NatBits(NatOf(s), |s|) == s
  {
    if s != [] {
      var m := NatOf(s[..|s| - 1]);
      BitsOfNat(s[..|s| - 1]);
      assert NatOf(s) / 2 == m;
    }
  }

  lemma ByteBitsInjective(a: byte, b: byte)
    requires ByteBits(a) == ByteBits(b)
    ensures a == b
  {
    assert Power2(8) == 256 by {
      assert Power2(4) == 16;
    }
    NatOfBits(a, 8);
    NatOfBits(b, 8);
  }

  lemma {:induction false} BitsInjective(a: seq<byte>, b: seq<byte>)
    requires |a| == |b| && Bits(a) == Bits(b)
    ensures a == b
    decreases |a|
  {
    if a != [] {
      assert ByteBits(a[0]) == Bits(a)[..8] == Bits(b)[..8] == ByteBits(b[0]);
      ByteBitsInjective(a[0], b[0]);
      assert Bits(a[1..]) == Bits(a)[8..] == Bits(b)[8..] == Bits(b[1..]);
      BitsInjective(a[1..], b[1..]);
    }
  }

  /** A burst of at most 16 bits always changes the CRC, whatever the message and its length. */
  lemma ChecksumDetectsBurst(a: seq<byte>, b: seq<byte>, p: nat)
    requires a != b && AgreeOutsideBurst(Bits(a), Bits(b), p)
    ensures Checksum(a) != Checksum(b)
  {
    if Checksum(a) == Checksum(b) {
      UpdateIsBitSerial(INITIAL, a);
      UpdateIsBitSerial(INITIAL, b);
      FeedDetectsBurst(INITIAL, Bits(a), Bits(b), p);
      BitsInjective(a, b);
    }
  }

  /** The CRC is linear: the registers differ by the fed difference. */
  lemma ShiftLinear(x: Register, y: Register)
    ensures Shift(Xor(x, y)) == Xor(Shift(x), Shift(y))
  {
  }

  lemma {:induction false} ShiftsLinear(x: Register, y: Register, n: nat)
    ensures Shifts(Xor(x, y), n) == Xor(Shifts(x, n), Shifts(y, n))
    decreases n
  {
    if n > 0 {
      ShiftLinear(x, y);
      ShiftsLinear(Shift(x), Shift(y), n - 1);
    }
  }

  /** r is d after one shift: bit 15 feeds bits 12, 5 and 0. */
  ghost predicate OneShift(d: Register, r: Register) {
    && r[0] == d[1]
    && r[1] == d[2]
    && r[2] == d[3]
    && r[3] == (d[0] != d[4])
    && r[4] == d[5]
    && r[5] == d[6]
    && r[6] == d[7]
    && r[7] == d[8]
    && r[8] == d[9]
    && r[9] == d[10]
    && r[10] == (d[0] != d[11])
    && r[11] == d[12]
    && r[12] == d[13]
    && r[13] == d[14]
    && r[14] == d[15]
    && r[15] == d[0]
  }

  /** r is d after four shifts. */
  ghost predicate FourShifts(d: Register, r: Register) {
    && r[0] == (d[0] != d[4])
    && r[1] == (d[1] != d[5])
    && r[2] == (d[2] != d[6])
    && r[3] == (d[3] != d[7])
    && r[4] == d[8]
    && r[5] == d[9]
    && r[6] == d[10]
    && r[7] == (d[0] != d[11])
    && r[8] == (d[1] != d[12])
    && r[9] == (d[2] != d[13])
    && r[10] == (d[3] != d[14])
    && r[11] == d[15]
    && r[12] == d[0]
    && r[13] == d[1]
    && r[14] == d[2]
    && r[15] == d[3]
  }

  /** r is d after eight shifts. */
  ghost predicate EightShifts(d: Register, r: Register) {
    && r[0] == ((d[0] != d[4]) != d[8])
    && r[1] == ((d[1] != d[5]) != d[9])
    && r[2] == ((d[2] != d[6]) != d[10])
    && r[3] == (((d[0] != d[3]) != d[7]) != d[11])
    && r[4] == (d[1] != d[12])
    && r[5] == (d[2] != d[13])
    && r[6] == (d[3] != d[14])
    && r[7] == ((d[0] != d[4]) != d[15])
    && r[8] == ((d[0] != d[1]) != d[5])
    && r[9] == ((d[1] != d[2]) != d[6])
    && r[10] == ((d[2] != d[3]) != d[7])
    && r[11] == d[3]
    && r[12] == (d[0] != d[4])
    && r[13] == (d[1] != d[5])
    && r[14] == (d[2] != d[6])
    && r[15] == (d[3] != d[7])
  }

  lemma ShiftTaps(d: Register)
    ensures OneShift(d, Shift(d))
  {
    var r := Shift(d);
    assert r[15] == d[0];
    assert forall i :: 0 <= i < 15 ==> r[i] == (d[i + 1] != (d[0] && GENERATOR[i]));
  }

  lemma FourSingleShifts(d: Register, a: Register, b: Register, c: Register, r: Register)
    requires OneShift(d, a) && OneShift(a, b) && OneShift(b, c) && OneShift(c, r)
    ensures FourShifts(d, r)
  {
  }

  lemma ShiftFour(d: Register)
    ensures FourShifts(d, Shifts(d, 4))
  {
    var a := Shift(d);
    var b := Shift(a);
    var c := Shift(b);
    assert Shifts(d, 4) == Shifts(b, 2) == Shift(c);
    ShiftTaps(d);
    ShiftTaps(a);
    ShiftTaps(b);
    ShiftTaps(c);
    FourSingleShifts(d, a, b, c, Shift(c));
  }

  lemma ShiftsAdd(d: Register, m: nat, n: nat)
    ensures Shifts(d, m + n) == Shifts(Shifts(d, m), n)
    decreases m
  {
    if m > 0 {
      ShiftsAdd(Shift(d), m - 1, n);
    }
  }

  lemma TwiceFour(d: Register, m: Register, r: Register)
    requires FourShifts(d, m) && FourShifts(m, r)
    ensures EightShifts(d, r)
  {
  }

  lemma ShiftEight(d: Register)
    ensures EightShifts(d, Shifts(d, 8))
  {
    ShiftsAdd(d, 4, 4);
    ShiftFour(d);
    ShiftFour(Shifts(d, 4));
    TwiceFour(d, Shifts(d, 4), Shifts(d, 8));
  }
}
