/** The protocol's golden byte vectors, computed in this model: which of them a
    receiver accepts, and two concrete hazards. The register is stepped a byte at
    a time in integers, so that each step is a fact about numbers. */
module GoldenVectors {
  import opened Arithmetic
  import opened Crc16
  import opened CrcTrailer
  import opened VoxLinkCodec

  /** One byte of the CRC in integers: crc' is crc after the byte b. */
  ghost predicate IntegerStep(crc: nat, b: byte, crc': nat) {
    && crc < 65536 && crc' < 65536
    && var d0 := (crc / 32768 % 2 == 1) != (b / 128 % 2 == 1);
    && var d1 := (crc / 16384 % 2 == 1) != (b / 64 % 2 == 1);
    && var d2 := (crc / 8192 % 2 == 1) != (b / 32 % 2 == 1);
    && var d3 := (crc / 4096 % 2 == 1) != (b / 16 % 2 == 1);
    && var d4 := (crc / 2048 % 2 == 1) != (b / 8 % 2 == 1);
    && var d5 := (crc / 1024 % 2 == 1) != (b / 4 % 2 == 1);
    && var d6 := (crc / 512 % 2 == 1) != (b / 2 % 2 == 1);
    && var d7 := (crc / 256 % 2 == 1) != (b % 2 == 1);
    && var d8 := crc / 128 % 2 == 1;
    && var d9 := crc / 64 % 2 == 1;
    && var d10 := crc / 32 % 2 == 1;
    && var d11 := crc / 16 % 2 == 1;
    && var d12 := crc / 8 % 2 == 1;
    && var d13 := crc / 4 % 2 == 1;
    && var d14 := crc / 2 % 2 == 1;
    && var d15 := crc % 2 == 1;
    && (crc' / 32768 % 2 == 1) == ((d0 != d4) != d8)
    && (crc' / 16384 % 2 == 1) == ((d1 != d5) != d9)
    && (crc' / 8192 % 2 == 1) == ((d2 != d6) != d10)
    && (crc' / 4096 % 2 == 1) == (((d0 != d3) != d7) != d11)
    && (crc' / 2048 % 2 == 1) == (d1 != d12)
    && (crc' / 1024 % 2 == 1) == (d2 != d13)
    && (crc' / 512 % 2 == 1) == (d3 != d14)
    && (crc' / 256 % 2 == 1) == ((d0 != d4) != d15)
    && (crc' / 128 % 2 == 1) == ((d0 != d1) != d5)
    && (crc' / 64 % 2 == 1) == ((d1 != d2) != d6)
    && (crc' / 32 % 2 == 1) == ((d2 != d3) != d7)
    && (crc' / 16 % 2 == 1) == d3
    && (crc' / 8 % 2 == 1) == (d0 != d4)
    && (crc' / 4 % 2 == 1) == (d1 != d5)
    && (crc' / 2 % 2 == 1) == (d2 != d6)
    && (crc' % 2 == 1) == (d3 != d7)
  }

  lemma {:induction false} NatBitsAt(n: nat, width: nat, i: nat)
    requires i < width
    ensures Power2(width - 1 - i) > 0 && NatBits(n, width)[i] == (n / Power2(width - 1 - i) % 2 == 1)
    decreases width
  {
    if i < width - 1 {
      NatBitsAt(n / 2, width - 1, i);
      DivTwice(n, Power2(width - 2 - i));
    }
  }

  lemma PowersOfTwo()
    ensures Power2(0) == 1 && Power2(1) == 2 && Power2(2) == 4 && Power2(3) == 8 && Power2(4) == 16
      && Power2(5) == 32 && Power2(6) == 64 && Power2(7) == 128
    ensures Power2(8) == 256 && Power2(9) == 512 && Power2(10) == 1024 && Power2(11) == 2048
      && Power2(12) == 4096 && Power2(13) == 8192 && Power2(14) == 16384 && Power2(15) == 32768
  {
  }

  lemma WordBits(n: nat)
    ensures var s := NatBits(n, 16);
            && s[0] == (n / 32768 % 2 == 1) && s[1] == (n / 16384 % 2 == 1) && s[2] == (n / 8192 % 2 == 1)
            && s[3] == (n / 4096 % 2 == 1)
            && s[4] == (n / 2048 % 2 == 1) && s[5] == (n / 1024 % 2 == 1) && s[6] == (n / 512 % 2 == 1)
            && s[7] == (n / 256 % 2 == 1)
            && s[8] == (n / 128 % 2 == 1) && s[9] == (n / 64 % 2 == 1) && s[10] == (n / 32 % 2 == 1)
            && s[11] == (n / 16 % 2 == 1)
            && s[12] == (n / 8 % 2 == 1) && s[13] == (n / 4 % 2 == 1) && s[14] == (n / 2 % 2 == 1)
            && s[15] == (n % 2 == 1)
  {
    PowersOfTwo();
    forall i | 0 <= i < 16
      ensures NatBits(n, 16)[i] == (n / Power2(15 - i) % 2 == 1)
    {
      NatBitsAt(n, 16, i);
    }
  }

  lemma OctetBits(n: byte)
    ensures var s := ByteBits(n);
            && s[0] == (n / 128 % 2 == 1) && s[1] == (n / 64 % 2 == 1) && s[2] == (n / 32 % 2 == 1)
            && s[3] == (n / 16 % 2 == 1)
            && s[4] == (n / 8 % 2 == 1) && s[5] == (n / 4 % 2 == 1) && s[6] == (n / 2 % 2 == 1) && s[7] == (n % 2 == 1)
  {
    PowersOfTwo();
    forall i | 0 <= i < 8
      ensures NatBits(n, 8)[i] == (n / Power2(7 - i) % 2 == 1)
    {
      NatBitsAt(n, 8, i);
    }
  }

  lemma EightShiftsDetermine(d: Register, x: Register, y: Register)
    requires EightShifts(d, x) && EightShifts(d, y)
    ensures x == y
  {
  }

  lemma IntegerStepIsUpdateByte(crc: nat, b: byte, crc': nat)
    requires IntegerStep(crc, b, crc')
    ensures UpdateByte(NatBits(crc, 16), b) == NatBits(crc', 16)
  {
    hide NatBits, ByteBits;
    var x, y := NatBits(crc, 16), ByteBits(b);
    var d := Xor(x, y + Zeros(8));
    WordBits(crc);
    WordBits(crc');
    OctetBits(b);
    assert forall i :: 0 <= i < 8 ==> d[i] == (x[i] != y[i]);
    assert forall i :: 8 <= i < 16 ==> d[i] == x[i];
    ShiftEight(d);
    EightShiftsDetermine(d, Shifts(d, 8), NatBits(crc', 16));
  }

  lemma InitialIsAllOnes()
    ensures NatBits(65535, 16) == INITIAL
  {
    hide NatBits;
    WordBits(65535);
  }

  lemma UpdateFirst(r: Register, b: byte, rest: seq<byte>)
    ensures Update(r, [b] + rest) == Update(UpdateByte(r, b), rest)
  {
    assert ([b] + rest)[1..] == rest;
  }

  /** The data, fed from register crc, leave register crc'. */
  ghost predicate Yields(crc: nat, data: seq<byte>, crc': nat) {
    Update(NatBits(crc, 16), data) == NatBits(crc', 16)
  }

  lemma OneStep(c: nat, b: byte, c': nat, data: seq<byte>, c'': nat)
    requires IntegerStep(c, b, c') && Yields(c', data, c'')
    ensures Yields(c, [b] + data, c'')
  {
    IntegerStepIsUpdateByte(c, b, c');
    UpdateFirst(NatBits(c, 16), b, data);
  }

  lemma Joined(c: nat, a: seq<byte>, c': nat, b: seq<byte>, c'': nat)
    requires Yields(c, a, c') && Yields(c', b, c'')
    ensures Yields(c, a + b, c'')
  {
    UpdateConcat(NatBits(c, 16), a, b);
  }

  lemma {:induction false} NatBitsSplit(hi: nat, lo: nat, width: nat, k: nat)
    requires lo < Power2(k)
    ensures NatBits(hi * Power2(k) + lo, width + k) == NatBits(hi, width) + NatBits(lo, k)
    decreases k
  {
    if k > 0 {
      var n := hi * Power2(k) + lo;
      assert n == 2 * (hi * Power2(k - 1)) + lo;
      assert n / 2 == hi * Power2(k - 1) + lo / 2;
      NatBitsSplit(hi, lo / 2, width, k - 1);
      assert n % 2 == lo % 2;
    }
  }

  /** A receiver that computed the register crc accepts exactly its two bytes, low byte first. */
  lemma AcceptsInteger(body: seq<byte>, crc: nat, lo: byte, hi: byte)
    requires Yields(65535, body, crc) && crc < 65536
    ensures Accepts(body, [lo, hi]) <==> crc == lo + 256 * hi
  {
    hide NatBits;
    InitialIsAllOnes();
    PowersOfTwo();
    assert Power2(16) == 2 * Power2(15);
    NatBitsSplit(hi, lo, 8, 8);
    NatOfBits(crc, 16);
    NatOfBits(lo + 256 * hi, 16);
  }

  lemma TwoSteps(c: nat, w: byte, c1: nat, x: byte, c2: nat)
    requires IntegerStep(c, w, c1) && IntegerStep(c1, x, c2)
    ensures Yields(c, [w, x], c2)
  {
    hide IntegerStep;
    assert Yields(c2, [], c2);
    OneStep(c1, x, c2, [], c2);
    OneStep(c, w, c1, [x], c2);
    assert [w] + ([x] + []) == [w, x] && [x] + [] == [x];
  }

  lemma LastStep(c: nat, w: byte, c1: nat)
    requires IntegerStep(c, w, c1)
    ensures Yields(c, [w], c1)
  {
    hide IntegerStep;
    assert Yields(c1, [], c1);
    OneStep(c, w, c1, [], c1);
    assert [w] + [] == [w];
  }

  lemma FourSteps(c: nat, w: byte, c1: nat, x: byte, c2: nat, y: byte, c3: nat, z: byte, c4: nat)
    requires IntegerStep(c, w, c1) && IntegerStep(c1, x, c2)
    requires IntegerStep(c2, y, c3) && IntegerStep(c3, z, c4)
    ensures Yields(c, [w, x, y, z], c4)
  {
    hide IntegerStep, Yields;
    TwoSteps(c, w, c1, x, c2);
    TwoSteps(c2, y, c3, z, c4);
    Joined(c, [w, x], c2, [y, z], c4);
    assert [w, x] + [y, z] == [w, x, y, z];
  }

  lemma CheckString1()
    ensures Yields(0xFFFF, [0x31, 0x32, 0x33, 0x34], 0x5349)
  {
    hide Yields;
    FourSteps(0xFFFF, 0x31, 0xC782, 0x32, 0x3DBA, 0x33, 0x5BCE, 0x34, 0x5349);
  }

  lemma CheckString2()
    ensures Yields(0x5349, [0x35, 0x36, 0x37, 0x38], 0xA12B)
  {
    hide Yields;
    FourSteps(0x5349, 0x35, 0x4560, 0x36, 0x2EF4, 0x37, 0x7718, 0x38, 0xA12B);
  }

  lemma CheckString3()
    ensures Yields(0xA12B, [0x39], 0x29B1)
  {
    hide Yields;
    LastStep(0xA12B, 0x39, 0x29B1);
  }

  lemma CheckStringRegister()
    ensures Yields(0xFFFF, [0x31, 0x32, 0x33, 0x34, 0x35, 0x36, 0x37, 0x38, 0x39], 0x29B1)
  {
    hide Yields;
    CheckString1();
    CheckString2();
    Joined(0xFFFF, [0x31, 0x32, 0x33, 0x34], 0x5349, [0x35, 0x36, 0x37, 0x38], 0xA12B);
    assert [0x31, 0x32, 0x33, 0x34] + [0x35, 0x36, 0x37, 0x38] == [0x31, 0x32, 0x33, 0x34, 0x35, 0x36, 0x37, 0x38];
    CheckString3();
    Joined(0xFFFF, [0x31, 0x32, 0x33, 0x34, 0x35, 0x36, 0x37, 0x38], 0xA12B, [0x39], 0x29B1);
    assert [0x31, 0x32, 0x33, 0x34, 0x35, 0x36, 0x37, 0x38] + [0x39] == [0x31, 0x32, 0x33, 0x34, 0x35, 0x36, 0x37,
      0x38, 0x39];
  }

  lemma Heartbeat1()
    ensures Yields(0xFFFF, [0x10, 0x60, 0x00, 0x03], 0x346F)
  {
    hide Yields;
    FourSteps(0xFFFF, 0x10, 0xF3C1, 0x60, 0x72DA, 0x00, 0x84D5, 0x03, 0x346F);
  }

  lemma Heartbeat2()
    ensures Yields(0x346F, [0x00, 0x00], 0x5418)
  {
    hide Yields;
    TwoSteps(0x346F, 0x00, 0x19D7, 0x00, 0x5418);
  }

  lemma HeartbeatRegister()
    ensures Yields(0xFFFF, [0x10, 0x60, 0x00, 0x03, 0x00, 0x00], 0x5418)
  {
    hide Yields;
    Heartbeat1();
    Heartbeat2();
    Joined(0xFFFF, [0x10, 0x60, 0x00, 0x03], 0x346F, [0x00, 0x00], 0x5418);
    assert [0x10, 0x60, 0x00, 0x03] + [0x00, 0x00] == [0x10, 0x60, 0x00, 0x03, 0x00, 0x00];
  }

  lemma Hello1()
    ensures Yields(0xFFFF, [0x10, 0x01, 0x00, 0x2A], 0x2D7F)
  {
    hide Yields;
    FourSteps(0xFFFF, 0x10, 0xF3C1, 0x01, 0x0E5D, 0x00, 0xBCCE, 0x2A, 0x2D7F);
  }

  lemma Hello2()
    ensures Yields(0x2D7F, [0x03, 0x00, 0x10, 0x01], 0x727F)
  {
    hide Yields;
    FourSteps(0x2D7F, 0x03, 0xBAAC, 0x00, 0xAA91, 0x10, 0x9791, 0x01, 0x727F);
  }

  lemma Hello3()
    ensures Yields(0x727F, [0x00], 0x21D5)
  {
    hide Yields;
    LastStep(0x727F, 0x00, 0x21D5);
  }

  lemma HelloRegister()
    ensures Yields(0xFFFF, [0x10, 0x01, 0x00, 0x2A, 0x03, 0x00, 0x10, 0x01, 0x00], 0x21D5)
  {
    hide Yields;
    Hello1();
    Hello2();
    Joined(0xFFFF, [0x10, 0x01, 0x00, 0x2A], 0x2D7F, [0x03, 0x00, 0x10, 0x01], 0x727F);
    assert [0x10, 0x01, 0x00, 0x2A] + [0x03, 0x00, 0x10, 0x01] == [0x10, 0x01, 0x00, 0x2A, 0x03, 0x00, 0x10, 0x01];
    Hello3();
    Joined(0xFFFF, [0x10, 0x01, 0x00, 0x2A, 0x03, 0x00, 0x10, 0x01], 0x727F, [0x00], 0x21D5);
    assert [0x10, 0x01, 0x00, 0x2A, 0x03, 0x00, 0x10, 0x01] + [0x00] == [0x10, 0x01, 0x00, 0x2A, 0x03, 0x00, 0x10,
      0x01, 0x00];
  }

  lemma Altered3()
    ensures Yields(0x727F, [0x89], 0x2174)
  {
    hide Yields;
    LastStep(0x727F, 0x89, 0x2174);
  }

  lemma AlteredRegister()
    ensures Yields(0xFFFF, [0x10, 0x01, 0x00, 0x2A, 0x03, 0x00, 0x10, 0x01, 0x89], 0x2174)
  {
    hide Yields;
    Hello1();
    Hello2();
    Joined(0xFFFF, [0x10, 0x01, 0x00, 0x2A], 0x2D7F, [0x03, 0x00, 0x10, 0x01], 0x727F);
    assert [0x10, 0x01, 0x00, 0x2A] + [0x03, 0x00, 0x10, 0x01] == [0x10, 0x01, 0x00, 0x2A, 0x03, 0x00, 0x10, 0x01];
    Altered3();
    Joined(0xFFFF, [0x10, 0x01, 0x00, 0x2A, 0x03, 0x00, 0x10, 0x01], 0x727F, [0x89], 0x2174);
    assert [0x10, 0x01, 0x00, 0x2A, 0x03, 0x00, 0x10, 0x01] + [0x89] == [0x10, 0x01, 0x00, 0x2A, 0x03, 0x00, 0x10,
      0x01, 0x89];
  }

  lemma Beacon1()
    ensures Yields(0xFFFF, [0x10, 0x60, 0x00, 0x00], 0x040C)
  {
    hide Yields;
    FourSteps(0xFFFF, 0x10, 0xF3C1, 0x60, 0x72DA, 0x00, 0x84D5, 0x00, 0x040C);
  }

  lemma Beacon2()
    ensures Yields(0x040C, [0x08, 0x00, 0xA5, 0x5A], 0x2367)
  {
    hide Yields;
    FourSteps(0x040C, 0x08, 0xCD8C, 0x00, 0x84E1, 0xA5, 0xD543, 0x5A, 0x2367);
  }

  lemma Beacon3()
    ensures Yields(0x2367, [0x10, 0x00, 0x00, 0x00], 0xA9CE)
  {
    hide Yields;
    FourSteps(0x2367, 0x10, 0x6130, 0x00, 0x4C87, 0x00, 0x0E48, 0x00, 0xA9CE);
  }

  lemma Beacon4()
    ensures Yields(0xA9CE, [0x08, 0x00], 0x16CD)
  {
    hide Yields;
    TwoSteps(0xA9CE, 0x08, 0x6BCB, 0x00, 0x16CD);
  }

  lemma BeaconRegister()
    ensures Yields(0xFFFF, [0x10, 0x60, 0x00, 0x00, 0x08, 0x00, 0xA5, 0x5A, 0x10, 0x00, 0x00, 0x00, 0x08, 0x00], 0x16CD)
  {
    hide Yields;
    Beacon1();
    Beacon2();
    Joined(0xFFFF, [0x10, 0x60, 0x00, 0x00], 0x040C, [0x08, 0x00, 0xA5, 0x5A], 0x2367);
    assert [0x10, 0x60, 0x00, 0x00] + [0x08, 0x00, 0xA5, 0x5A] == [0x10, 0x60, 0x00, 0x00, 0x08, 0x00, 0xA5, 0x5A];
    Beacon3();
    Joined(0xFFFF, [0x10, 0x60, 0x00, 0x00, 0x08, 0x00, 0xA5, 0x5A], 0x2367, [0x10, 0x00, 0x00, 0x00], 0xA9CE);
    assert [0x10, 0x60, 0x00, 0x00, 0x08, 0x00, 0xA5, 0x5A] + [0x10, 0x00, 0x00, 0x00] == [0x10, 0x60, 0x00, 0x00,
      0x08, 0x00, 0xA5, 0x5A, 0x10, 0x00, 0x00, 0x00];
    Beacon4();
    Joined(0xFFFF, [0x10, 0x60, 0x00, 0x00, 0x08, 0x00, 0xA5, 0x5A, 0x10, 0x00, 0x00, 0x00], 0xA9CE, [0x08, 0x00],
      0x16CD);
    assert [0x10, 0x60, 0x00, 0x00, 0x08, 0x00, 0xA5, 0x5A, 0x10, 0x00, 0x00, 0x00] + [0x08, 0x00] == [0x10, 0x60,
      0x00, 0x00, 0x08, 0x00, 0xA5, 0x5A, 0x10, 0x00, 0x00, 0x00, 0x08, 0x00];
  }

  lemma Misread1()
    ensures Yields(0xFFFF, [0x10, 0x00, 0x00, 0x00], 0x9F67)
  {
    hide Yields;
    FourSteps(0xFFFF, 0x10, 0xF3C1, 0x00, 0x1E7C, 0x00, 0x8FFF, 0x00, 0x9F67);
  }

  lemma Misread2()
    ensures Yields(0x9F67, [0x08, 0x00, 0xCD, 0x16], 0x9BB6)
  {
    hide Yields;
    FourSteps(0x9F67, 0x08, 0x945E, 0x00, 0x9D3D, 0xCD, 0x67F5, 0x16, 0x9BB6);
  }

  lemma Misread3()
    ensures Yields(0x9BB6, [0xA5, 0x5A, 0x10, 0x60], 0x3436)
  {
    hide Yields;
    FourSteps(0x9BB6, 0xA5, 0x619D, 0x5A, 0x1A38, 0x10, 0x994A, 0x60, 0x3436);
  }

  lemma Misread4()
    ensures Yields(0x3436, [0x00, 0x00], 0x9FC4)
  {
    hide Yields;
    TwoSteps(0x3436, 0x00, 0x40D7, 0x00, 0x9FC4);
  }

  lemma MisreadRegister()
    ensures Yields(0xFFFF, [0x10, 0x00, 0x00, 0x00, 0x08, 0x00, 0xCD, 0x16, 0xA5, 0x5A, 0x10, 0x60, 0x00, 0x00], 0x9FC4)
  {
    hide Yields;
    Misread1();
    Misread2();
    Joined(0xFFFF, [0x10, 0x00, 0x00, 0x00], 0x9F67, [0x08, 0x00, 0xCD, 0x16], 0x9BB6);
    assert [0x10, 0x00, 0x00, 0x00] + [0x08, 0x00, 0xCD, 0x16] == [0x10, 0x00, 0x00, 0x00, 0x08, 0x00, 0xCD, 0x16];
    Misread3();
    Joined(0xFFFF, [0x10, 0x00, 0x00, 0x00, 0x08, 0x00, 0xCD, 0x16], 0x9BB6, [0xA5, 0x5A, 0x10, 0x60], 0x3436);
    assert [0x10, 0x00, 0x00, 0x00, 0x08, 0x00, 0xCD, 0x16] + [0xA5, 0x5A, 0x10, 0x60] == [0x10, 0x00, 0x00, 0x00,
      0x08, 0x00, 0xCD, 0x16, 0xA5, 0x5A, 0x10, 0x60];
    Misread4();
    Joined(0xFFFF, [0x10, 0x00, 0x00, 0x00, 0x08, 0x00, 0xCD, 0x16, 0xA5, 0x5A, 0x10, 0x60], 0x3436, [0x00, 0x00],
      0x9FC4);
    assert [0x10, 0x00, 0x00, 0x00, 0x08, 0x00, 0xCD, 0x16, 0xA5, 0x5A, 0x10, 0x60] + [0x00, 0x00] == [0x10, 0x00,
      0x00, 0x00, 0x08, 0x00, 0xCD, 0x16, 0xA5, 0x5A, 0x10, 0x60, 0x00, 0x00];
  }

  /** The CRC's published check value: "123456789" gives 0x29B1. */
  lemma CheckValue()
    ensures Checksum([0x31, 0x32, 0x33, 0x34, 0x35, 0x36, 0x37, 0x38, 0x39]) == NatBits(0x29B1, 16)
  {
    hide Update, NatBits;
    CheckStringRegister();
    InitialIsAllOnes();
  }

  /** The wire form of a frame with a short payload, its CRC bytes given. */
  function Wire(version: byte, msgType: byte, flags: byte, seqNo: byte, payload: seq<byte>,
                lo: byte, hi: byte): seq<byte>
    requires |payload| < 256
  {
    [SOF0, SOF1] + ([version, msgType, flags, seqNo, |payload|, 0] + payload) + [lo, hi]
  }

  /** Such a frame is delivered when its CRC bytes are those of the register it yields. */
  lemma WireVerdict(version: byte, msgType: byte, flags: byte, seqNo: byte, payload: seq<byte>,
                    lo: byte, hi: byte, crc: nat)
    requires version / 16 == VERSION_MAJOR && |payload| < 256 && crc < 65536
    requires Yields(65535, [version, msgType, flags, seqNo, |payload|, 0] + payload, crc)
    ensures Decode(Wire(version, msgType, flags, seqNo, payload, lo, hi))
         == if crc == lo + 256 * hi
            then Decoded(Frame(version, msgType, flags, seqNo, payload), 10 + |payload|)
            else Rejected(BadCrc)
  {
    hide Accepts, Yields;
    var len := |payload|;
    var body := [version, msgType, flags, seqNo, len, 0] + payload;
    var data := Wire(version, msgType, flags, seqNo, payload, lo, hi);
    AcceptsInteger(body, crc, lo, hi);
    assert data[2..8 + len] == body;
    assert data[8 + len..10 + len] == [lo, hi];
    assert data[8..8 + len] == payload;
  }

  lemma HeartbeatVector()
    ensures Decode(Wire(0x10, 0x60, 0x00, 0x03, [], 0x18, 0x54)) == Decoded(Frame(0x10, 0x60, 0x00, 0x03, []), 10)
  {
    hide Decode, Yields, Wire;
    HeartbeatRegister();
    assert [0x10, 0x60, 0x00, 0x03, 0, 0] + [] == [0x10, 0x60, 0x00, 0x03, 0x00, 0x00];
    WireVerdict(0x10, 0x60, 0x00, 0x03, [], 0x18, 0x54, 0x5418);
  }

  /** HELLO is accepted, and with its last CRC byte corrupted it fails. */
  lemma HelloVectors()
    ensures Decode(Wire(0x10, 0x01, 0x00, 0x2A, [0x10, 0x01, 0x00], 0xD5, 0x21))
         == Decoded(Frame(0x10, 0x01, 0x00, 0x2A, [0x10, 0x01, 0x00]), 13)
    ensures Decode(Wire(0x10, 0x01, 0x00, 0x2A, [0x10, 0x01, 0x00], 0xD5, 0xDE)) == Rejected(BadCrc)
  {
    hide Decode, Yields, Wire;
    HelloRegister();
    assert [0x10, 0x01, 0x00, 0x2A, 3, 0] + [0x10, 0x01, 0x00]
        == [0x10, 0x01, 0x00, 0x2A, 0x03, 0x00, 0x10, 0x01, 0x00];
    WireVerdict(0x10, 0x01, 0x00, 0x2A, [0x10, 0x01, 0x00], 0xD5, 0x21, 0x21D5);
    WireVerdict(0x10, 0x01, 0x00, 0x2A, [0x10, 0x01, 0x00], 0xD5, 0xDE, 0x21D5);
  }

  /** HELLO with its last payload byte and the CRC byte after it damaged: delivered all the same. */
  lemma HelloUndetectedDamage()
    ensures Decode(Wire(0x10, 0x01, 0x00, 0x2A, [0x10, 0x01, 0x89], 0x74, 0x21))
         == Decoded(Frame(0x10, 0x01, 0x00, 0x2A, [0x10, 0x01, 0x89]), 13)
  {
    hide Decode, Yields, Wire;
    AlteredRegister();
    assert [0x10, 0x01, 0x00, 0x2A, 3, 0] + [0x10, 0x01, 0x89]
        == [0x10, 0x01, 0x00, 0x2A, 0x03, 0x00, 0x10, 0x01, 0x89];
    WireVerdict(0x10, 0x01, 0x00, 0x2A, [0x10, 0x01, 0x89], 0x74, 0x21, 0x2174);
  }

  // A payload that looks like the start of a frame with an eight-byte payload
  const DECOY: seq<byte> := [0xA5, 0x5A, 0x10, 0x00, 0x00, 0x00, 0x08, 0x00]

  /** The frame with that payload is sound, */
  lemma BeaconDecodes()
    ensures Decode(Wire(0x10, 0x60, 0x00, 0x00, DECOY, 0xCD, 0x16))
         == Decoded(Frame(0x10, 0x60, 0x00, 0x00, DECOY), 18)
  {
    hide Decode, Yields, Wire;
    BeaconRegister();
    assert [0x10, 0x60, 0x00, 0x00, 8, 0] + DECOY
        == [0x10, 0x60, 0x00, 0x00, 0x08, 0x00, 0xA5, 0x5A, 0x10, 0x00, 0x00, 0x00, 0x08, 0x00];
    WireVerdict(0x10, 0x60, 0x00, 0x00, DECOY, 0xCD, 0x16, 0x16CD);
  }

  /** but two of them in a row, read from the decoy on, look like a damaged one. */
  lemma DecoyIsDamaged()
    ensures Decode(Wire(0x10, 0x00, 0x00, 0x00, [0xCD, 0x16, 0xA5, 0x5A, 0x10, 0x60, 0x00, 0x00], 0x08, 0x00))
         == Rejected(BadCrc)
  {
    hide Decode, Yields, Wire;
    MisreadRegister();
    assert [0x10, 0x00, 0x00, 0x00, 8, 0] + [0xCD, 0x16, 0xA5, 0x5A, 0x10, 0x60, 0x00, 0x00]
        == [0x10, 0x00, 0x00, 0x00, 0x08, 0x00, 0xCD, 0x16, 0xA5, 0x5A, 0x10, 0x60, 0x00, 0x00];
    WireVerdict(0x10, 0x00, 0x00, 0x00, [0xCD, 0x16, 0xA5, 0x5A, 0x10, 0x60, 0x00, 0x00], 0x08, 0x00, 0x9FC4);
  }

  /** Those bytes are the same circle entered at its ninth byte. */
  lemma DecoyTurnsBeacon()
    ensures var beacon := Wire(0x10, 0x60, 0x00, 0x00, DECOY, 0xCD, 0x16);
            && |beacon| == 18
            && beacon[8..] + beacon[..8]
               == Wire(0x10, 0x00, 0x00, 0x00, [0xCD, 0x16, 0xA5, 0x5A, 0x10, 0x60, 0x00, 0x00], 0x08, 0x00)
  {
    var beacon := Wire(0x10, 0x60, 0x00, 0x00, DECOY, 0xCD, 0x16);
    assert beacon[..8] == [0xA5, 0x5A, 0x10, 0x60, 0x00, 0x00, 0x08, 0x00];
    assert beacon[8..] == DECOY + [0xCD, 0x16];
  }
}
