/** The two CRC bytes that close a VoxLink frame, low byte first, and exactly
    which short error bursts across the message and those bytes they let through. */
module CrcTrailer {
  import opened Arithmetic
  import opened Crc16

  lemma PowerEight()
    ensures Power2(8) == 256
  {
    assert Power2(4) == 16;
  }

  /** `put_u16` of the register. */
  function Trailer(r: Register): (t: seq<byte>)
    ensures |t| == 2
  {
    BitsOfNat(r[8..]);
    BitsOfNat(r[..8]);
    PowerEight();
    [NatOf(r[8..]), NatOf(r[..8])]
  }

  /** The receiver's comparison of `get_u16(trailer)` with the CRC of the body. */
  predicate Accepts(body: seq<byte>, trailer: seq<byte>)
    requires |trailer| == 2
  {
    Checksum(body) == ByteBits(trailer[1]) + ByteBits(trailer[0])
  }

  /** The only trailer a receiver accepts is the one the sender appends. */
  lemma AcceptsOnlyTrailer(body: seq<byte>, trailer: seq<byte>)
    requires |trailer| == 2
    ensures Accepts(body, trailer) <==> trailer == Trailer(Checksum(body))
  {
    var r := Checksum(body);
    BitsOfNat(r[8..]);
    BitsOfNat(r[..8]);
    PowerEight();
    assert r == r[..8] + r[8..];
    NatOfBits(trailer[0], 8);
    NatOfBits(trailer[1], 8);
    if Accepts(body, trailer) {
      assert ByteBits(trailer[1]) == r[..8] && ByteBits(trailer[0]) == r[8..];
    }
  }

  // The bits, numbered in wire order over the last two message bytes (0..15)
  // and the two CRC bytes (16..31), whose damage cancels although it spans at
  // most 16 bits. Such patterns exist because the register's low byte is sent
  // before its high byte.
  predicate BoundaryEscape(k: nat, i: nat)
    requires k < 12
  {
    match k
    case 0 => i == 15 || i == 18 || i == 23 || i == 27
    case 1 => i == 14 || i == 17 || i == 22 || i == 26
    case 2 => i == 14 || i == 15 || i == 17 || i == 18 || i == 22 || i == 23 || i == 26 || i == 27
    case 3 => i == 13 || i == 16 || i == 21 || i == 25
    case 4 => i == 13 || i == 15 || i == 16 || i == 18 || i == 21 || i == 23 || i == 25 || i == 27
    case 5 => i == 13 || i == 14 || i == 16 || i == 17 || i == 21 || i == 22 || i == 25 || i == 26
    case 6 => i == 13 || i == 14 || i == 15 || i == 16 || i == 17 || i == 18 || i == 21 || i == 22 || i == 23
      || i == 25 || i == 26 || i == 27
    case 7 => i == 8 || i == 12 || i == 15 || i == 16 || i == 18 || i == 23
    case 8 => i == 6 || i == 10 || i == 11 || i == 13 || i == 15 || i == 16 || i == 19 || i == 21
    case 9 => i == 4 || i == 8 || i == 9 || i == 13 || i == 15 || i == 17
    case 10 => i == 3 || i == 7 || i == 8 || i == 12 || i == 14 || i == 16
    case 11 => i == 3 || i == 4 || i == 7 || i == 9 || i == 12 || i == 13 || i == 14 || i == 15 || i == 16 || i == 17
  }

  /** The set bits of w are exactly those of pattern k. */
  ghost predicate IsPattern(w: seq<bool>, k: nat)
    requires k < 12
  {
    |w| == 32 && forall i: nat :: i < 32 ==> w[i] == BoundaryEscape(k, i)
  }

  ghost predicate IsEscape(w: seq<bool>) {
    exists k: nat :: k < 12 && IsPattern(w, k)
  }

  /** The CRC bytes in wire order: the register with its halves exchanged. */
  function Swap(r: Register): Register {
    r[8..] + r[..8]
  }

  lemma SwapXor(a: Register, b: Register)
    ensures Swap(Xor(a, b)) == Xor(Swap(a), Swap(b))
  {
  }

  lemma SwapInjective(a: Register, b: Register)
    requires Swap(a) == Swap(b)
    ensures a == b
  {
    assert a == Swap(a)[8..] + Swap(a)[..8];
    assert b == Swap(b)[8..] + Swap(b)[..8];
  }

  /** d is the damage to the last two message bytes, r what the register makes of it
      sixteen shifts later, w the damage on the wire. */
  ghost predicate Cancels(d: Register, r: Register, w: seq<bool>) {
    && |w| == 32
    && (forall i :: 0 <= i < 16 ==> w[i] == d[i])
    && (forall i :: 16 <= i < 24 ==> w[i] == r[i - 8])
    && (forall i :: 24 <= i < 32 ==> w[i] == r[i - 24])
  }

  lemma CancelsIsSwap(d: Register, r: Register, w: seq<bool>)
    ensures Cancels(d, r, w) <==> w == d + Swap(r)
  {
  }

  /** The first half of a listed pattern, as damage to the last two message bytes. */
  ghost predicate StartsEscape(d: Register, k: nat)
    requires k < 12
  {
    forall i: nat :: i < 16 ==> d[i] == BoundaryEscape(k, i)
  }

  /** Solves the sixteen parity equations for every burst across the boundary. */
  lemma SolveParities(d: Register, m: Register, r: Register, w: seq<bool>, q: nat) returns (k: nat)
    requires EightShifts(d, m) && EightShifts(m, r)
    requires Cancels(d, r, w)
    requires 1 <= q <= 15
    requires forall i :: 0 <= i < 32 && !(q <= i < q + 16) ==> !w[i]
    requires exists i :: 0 <= i < 16 && d[i]
    ensures k < 12 && StartsEscape(d, k)
  {
    assert w[0] == d[0];
    assert w[1] == d[1];
    assert w[2] == d[2];
    assert w[3] == d[3];
    assert w[4] == d[4];
    assert w[5] == d[5];
    assert w[6] == d[6];
    assert w[7] == d[7];
    assert w[8] == d[8];
    assert w[9] == d[9];
    assert w[10] == d[10];
    assert w[11] == d[11];
    assert w[12] == d[12];
    assert w[13] == d[13];
    assert w[14] == d[14];
    assert w[15] == d[15];
    assert w[16] == r[8];
    assert w[17] == r[9];
    assert w[18] == r[10];
    assert w[19] == r[11];
    assert w[20] == r[12];
    assert w[21] == r[13];
    assert w[22] == r[14];
    assert w[23] == r[15];
    assert w[24] == r[0];
    assert w[25] == r[1];
    assert w[26] == r[2];
    assert w[27] == r[3];
    assert w[28] == r[4];
    assert w[29] == r[5];
    assert w[30] == r[6];
    assert w[31] == r[7];
    k := if d[3] then (if d[4] then 11 else 10)
      else if d[4] then 9
      else if d[6] then 8
      else if d[8] then 7
      else if d[13] then (if d[14] then (if d[15] then 6 else 5) else if d[15] then 4 else 3)
      else if d[14] then (if d[15] then 2 else 1) else 0;
  }

  /** Given the first half, cancelling and completing the listed pattern are the same. */
  lemma CancelsIffEscape(d: Register, m: Register, r: Register, w: seq<bool>, k: nat)
    requires EightShifts(d, m) && EightShifts(m, r)
    requires |w| == 32 && w[..16] == d
    requires k < 12 && StartsEscape(d, k)
    ensures Cancels(d, r, w) <==> IsPattern(w, k)
  {
    match k {
      case 0 =>
      case 1 =>
      case 2 =>
      case 3 =>
      case 4 =>
      case 5 =>
      case 6 =>
      case 7 =>
      case 8 =>
      case 9 =>
      case 10 =>
      case 11 =>
    }
  }

  lemma EscapeStraddles(w: seq<bool>, k: nat)
    requires k < 12 && IsPattern(w, k)
    ensures exists i :: 0 <= i < 16 && w[i]
    ensures exists i :: 16 <= i < 32 && w[i]
  {
    var i, j := LeadingDamage(k);
    assert w[i] && w[j];
  }

  lemma LeadingDamage(k: nat) returns (i: nat, j: nat)
    requires k < 12
    ensures i < 16 <= j < 32 && BoundaryEscape(k, i) && BoundaryEscape(k, j)
  {
    i := [15, 14, 15, 13, 13, 13, 13, 8, 6, 4, 3, 3][k];
    j := [18, 17, 18, 16, 16, 16, 16, 16, 16, 17, 16, 16][k];
  }

  lemma TwoBytesArePending(c: Register, u: seq<byte>)
    requires |u| == 2
    ensures Update(c, u) == Shifts(Xor(c, Bits(u)), 16)
  {
    UpdateIsBitSerial(c, u);
    PendingBits(c, Bits(u));
    assert Bits(u) + Zeros(0) == Bits(u);
  }

  lemma XorTwice(c: seq<bool>, x: seq<bool>, y: seq<bool>)
    requires |c| == |x| == |y|
    ensures Xor(Xor(c, x), Xor(c, y)) == Xor(x, y)
  {
  }

  /** The CRCs of two messages that differ in their last two bytes differ by that
      difference, sixteen shifts later. */
  lemma ChecksumDifference(head: seq<byte>, u: seq<byte>, v: seq<byte>) returns (m: Register)
    requires |u| == |v| == 2
    ensures EightShifts(Xor(Bits(u), Bits(v)), m)
    ensures EightShifts(m, Xor(Checksum(head + u), Checksum(head + v)))
  {
    hide Bits, Xor;
    var c := Checksum(head);
    var x, y := Xor(c, Bits(u)), Xor(c, Bits(v));
    var d := Xor(Bits(u), Bits(v));
    m := Shifts(d, 8);
    assert Checksum(head + u) == Shifts(x, 16) && Checksum(head + v) == Shifts(y, 16) by {
      UpdateConcat(INITIAL, head, u);
      UpdateConcat(INITIAL, head, v);
      TwoBytesArePending(c, u);
      TwoBytesArePending(c, v);
    }
    XorTwice(c, Bits(u), Bits(v));
    ShiftsLinear(x, y, 16);
    ShiftsAdd(d, 8, 8);
    ShiftEight(d);
    ShiftEight(m);
  }

  lemma TwoByteBits(t: seq<byte>)
    requires |t| == 2
    ensures Bits(t) == ByteBits(t[0]) + ByteBits(t[1])
  {
    assert t[1..] == [t[1]] && t[1..][1..] == [];
  }

  lemma XorZeroIsEqual(x: seq<bool>, y: seq<bool>)
    requires |x| == |y|
    ensures x == y <==> forall i :: 0 <= i < |x| ==> !Xor(x, y)[i]
  {
    if forall i :: 0 <= i < |x| ==> !Xor(x, y)[i] {
      forall i | 0 <= i < |x|
        ensures x[i] == y[i]
      {
        assert !Xor(x, y)[i];
      }
    }
  }

  /** After damage to the last two body bytes, acceptance means the CRC damage cancels it. */
  lemma AcceptsIffCancels(head: seq<byte>, u: seq<byte>, v: seq<byte>, s: seq<byte>, t: seq<byte>)
    requires |u| == |v| == |s| == |t| == 2
    requires Accepts(head + u, s)
    ensures Accepts(head + v, t)
            <==> Cancels(Xor(Bits(u), Bits(v)), Xor(Checksum(head + u), Checksum(head + v)),
                         Xor(Bits(u + s), Bits(v + t)))
  {
    hide Bits, ByteBits, Xor, Swap, Cancels;
    WireBits(u, s);
    WireBits(v, t);
    WireDamage(Bits(u), Bits(v), ByteBits(s[1]) + ByteBits(s[0]), ByteBits(t[1]) + ByteBits(t[0]),
               Checksum(head + v));
  }

  lemma WireBits(u: seq<byte>, s: seq<byte>)
    requires |u| == |s| == 2
    ensures Bits(u + s) == Bits(u) + Swap(ByteBits(s[1]) + ByteBits(s[0]))
  {
    BitsConcat(u, s);
    TwoByteBits(s);
    assert Swap(ByteBits(s[1]) + ByteBits(s[0])) == ByteBits(s[0]) + ByteBits(s[1]);
  }

  /** The same in terms of bits: a is the CRC sent, b the CRC received, y the CRC computed. */
  lemma WireDamage(u: Register, v: Register, a: Register, b: Register, y: Register)
    ensures y == b <==> Cancels(Xor(u, v), Xor(a, y), Xor(u + Swap(a), v + Swap(b)))
  {
    var w := Xor(u + Swap(a), v + Swap(b));
    CancelsIsSwap(Xor(u, v), Xor(a, y), w);
    assert w == Xor(u, v) + Xor(Swap(a), Swap(b));
    SwapXor(a, b);
    if Cancels(Xor(u, v), Xor(a, y), w) {
      assert Swap(Xor(a, y)) == w[16..] == Swap(Xor(a, b));
      SwapInjective(Xor(a, y), Xor(a, b));
      XorCommutes(a, y);
      XorCommutes(a, b);
      XorCancels(y, b, a);
    }
  }

  lemma XorCommutes(x: seq<bool>, y: seq<bool>)
    requires |x| == |y|
    ensures Xor(x, y) == Xor(y, x)
  {
  }

  /** A burst across the boundary is missed exactly when it is a listed pattern. */
  lemma StraddlingBurst(head: seq<byte>, u: seq<byte>, v: seq<byte>, s: seq<byte>, t: seq<byte>, q: nat)
    requires |u| == |v| == |s| == |t| == 2
    requires Accepts(head + u, s)
    requires u != v && 1 <= q <= 15
    requires AgreeOutsideBurst(Bits(u + s), Bits(v + t), q)
    ensures Accepts(head + v, t) <==> IsEscape(Xor(Bits(u + s), Bits(v + t)))
  {
    hide *;
    var d := Xor(Bits(u), Bits(v));
    var r := Xor(Checksum(head + u), Checksum(head + v));
    var w := Xor(Bits(u + s), Bits(v + t));
    var m := ChecksumDifference(head, u, v);
    AcceptsIffCancels(head, u, v, s, t);
    WireHead(u, v, s, t);
    DamageIsVisible(u, v);
    WireWindow(Bits(u + s), Bits(v + t), q);
    CancelsIsEscape(d, m, r, w, q);
  }

  lemma XorConcat(a: seq<bool>, b: seq<bool>, x: seq<bool>, y: seq<bool>)
    requires |a| == |x| && |b| == |y|
    ensures Xor(a + b, x + y) == Xor(a, x) + Xor(b, y)
  {
  }

  lemma WireHead(u: seq<byte>, v: seq<byte>, s: seq<byte>, t: seq<byte>)
    requires |u| == |v| == |s| == |t| == 2
    ensures Xor(Bits(u + s), Bits(v + t))[..16] == Xor(Bits(u), Bits(v))
  {
    BitsConcat(u, s);
    BitsConcat(v, t);
    XorConcat(Bits(u), Bits(s), Bits(v), Bits(t));
  }

  lemma DamageIsVisible(u: seq<byte>, v: seq<byte>)
    requires |u| == |v| && u != v
    ensures exists i :: 0 <= i < 8 * |u| && Xor(Bits(u), Bits(v))[i]
  {
    if Bits(u) == Bits(v) {
      BitsInjective(u, v);
    }
    XorZeroIsEqual(Bits(u), Bits(v));
  }

  lemma WireWindow(x: seq<bool>, y: seq<bool>, q: nat)
    requires AgreeOutsideBurst(x, y, q)
    ensures forall i :: 0 <= i < |x| && !(q <= i < q + 16) ==> !Xor(x, y)[i]
  {
  }

  lemma CancelsIsEscape(d: Register, m: Register, r: Register, w: seq<bool>, q: nat)
    requires EightShifts(d, m) && EightShifts(m, r)
    requires |w| == 32 && w[..16] == d
    requires 1 <= q <= 15
    requires forall i :: 0 <= i < 32 && !(q <= i < q + 16) ==> !w[i]
    requires exists i :: 0 <= i < 16 && d[i]
    ensures Cancels(d, r, w) <==> IsEscape(w)
  {
    if Cancels(d, r, w) {
      var k := SolveParities(d, m, r, w, q);
      CancelsIffEscape(d, m, r, w, k);
    }
    if IsEscape(w) {
      var k: nat :| k < 12 && IsPattern(w, k);
      assert forall i: nat :: i < 16 ==> d[i] == w[i];
      CancelsIffEscape(d, m, r, w, k);
    }
  }

  /** The damaged bits are exactly a listed pattern over the last two body bytes and the CRC. */
  ghost predicate HitsBoundary(x: seq<byte>, y: seq<byte>) {
    && |x| == |y| >= 4
    && x[..|x| - 4] == y[..|x| - 4]
    && IsEscape(Xor(Bits(x[|x| - 4..]), Bits(y[|x| - 4..])))
  }

  /** For a received frame with at least two checked bytes, damaged by one burst of
      at most 16 bits anywhere in the checked bytes and the CRC: the receiver accepts
      it exactly when the burst is one of the twelve boundary patterns. */
  lemma BurstVerdict(body: seq<byte>, crc: seq<byte>, body': seq<byte>, crc': seq<byte>, p: nat)
    requires |crc| == |crc'| == 2 && |body| == |body'| >= 2
    requires Accepts(body, crc)
    requires body + crc != body' + crc'
    requires AgreeOutsideBurst(Bits(body + crc), Bits(body' + crc'), p)
    ensures Accepts(body', crc') <==> HitsBoundary(body + crc, body' + crc')
  {
    hide Accepts, HitsBoundary, Bits;
    var n := |body|;
    if body == body' {
      SameBody(body, crc, crc');
    } else if p + 16 <= 8 * n {
      BurstInBody(body, crc, body', crc', p);
    } else {
      var head, u := body[..n - 2], body[n - 2..];
      assert body == head + u && body' == body'[..n - 2] + body'[n - 2..];
      BurstAtEnd(head, body'[..n - 2], u, body'[n - 2..], crc, crc', p - |Bits(head)|);
    }
  }

  lemma BurstAtEnd(head: seq<byte>, head': seq<byte>, u: seq<byte>, v: seq<byte>,
                   crc: seq<byte>, crc': seq<byte>, q: nat)
    requires |crc| == |crc'| == |u| == |v| == 2 && |head| == |head'|
    requires Accepts(head + u, crc)
    requires head + u != head' + v && 0 < q
    requires AgreeOutsideBurst(Bits(head + u + crc), Bits(head' + v + crc'), |Bits(head)| + q)
    ensures Accepts(head' + v, crc') <==> HitsBoundary(head + u + crc, head' + v + crc')
  {
    hide *;
    HeadUndamaged(head, head', u, v, crc, crc', q);
    LocatedBurst(head, u, v, crc, crc', q);
  }

  lemma HeadUndamaged(head: seq<byte>, head': seq<byte>, u: seq<byte>, v: seq<byte>,
                      crc: seq<byte>, crc': seq<byte>, q: nat)
    requires |crc| == |crc'| && |u| == |v| && |head| == |head'|
    requires AgreeOutsideBurst(Bits(head + u + crc), Bits(head' + v + crc'), |Bits(head)| + q)
    ensures head == head' && AgreeOutsideBurst(Bits(u + crc), Bits(v + crc'), q)
  {
    hide *;
    ConcatAssociative(head, u, crc);
    ConcatAssociative(head', v, crc');
    BeforeBurst(head, u + crc, head', v + crc', q);
    AfterPrefix(head, u + crc, head', v + crc', q);
  }

  lemma LocatedBurst(head: seq<byte>, u: seq<byte>, v: seq<byte>, crc: seq<byte>, crc': seq<byte>, q: nat)
    requires |crc| == |crc'| == |u| == |v| == 2
    requires Accepts(head + u, crc)
    requires u != v && 0 < q
    requires AgreeOutsideBurst(Bits(u + crc), Bits(v + crc'), q)
    ensures Accepts(head + v, crc') <==> HitsBoundary(head + u + crc, head + v + crc')
  {
    hide *;
    LastBytesDiffer(u, v, crc, crc', q);
    StraddlingBurst(head, u, v, crc, crc', q);
    HitsAtEnd(head, u, v, crc, crc');
  }

  lemma ConcatAssociative(a: seq<byte>, b: seq<byte>, c: seq<byte>)
    ensures a + b + c == a + (b + c)
  {
  }

  lemma LastBytesDiffer(u: seq<byte>, v: seq<byte>, crc: seq<byte>, crc': seq<byte>, q: nat)
    requires |crc| == |crc'| == |u| == |v| == 2 && u != v
    requires AgreeOutsideBurst(Bits(u + crc), Bits(v + crc'), q)
    ensures q <= 15
  {
    if q >= 16 {
      BeforeBurst(u, crc, v, crc', q - 16);
    }
  }

  lemma HitsAtEnd(head: seq<byte>, u: seq<byte>, v: seq<byte>, s: seq<byte>, t: seq<byte>)
    requires |u| == |v| == |s| == |t| == 2
    ensures HitsBoundary(head + u + s, head + v + t) <==> IsEscape(Xor(Bits(u + s), Bits(v + t)))
  {
    hide Bits, IsEscape;
    var x, y := head + u + s, head + v + t;
    assert x[|x| - 4..] == u + s && y[|x| - 4..] == v + t;
    assert x[..|x| - 4] == head == y[..|x| - 4];
  }

  lemma NoEscapeWithout(w: seq<bool>)
    requires (forall i :: 0 <= i < 16 && i < |w| ==> !w[i]) || (forall i :: 16 <= i < |w| ==> !w[i])
    ensures !IsEscape(w)
  {
    if IsEscape(w) {
      var k: nat :| k < 12 && IsPattern(w, k);
      EscapeStraddles(w, k);
    }
  }

  lemma SameBody(body: seq<byte>, crc: seq<byte>, crc': seq<byte>)
    requires |crc| == |crc'| == 2 && |body| >= 2
    requires Accepts(body, crc) && crc != crc'
    ensures !Accepts(body, crc') && !HitsBoundary(body + crc, body + crc')
  {
    hide Bits, IsEscape, HitsBoundary;
    AcceptsOnlyTrailer(body, crc);
    AcceptsOnlyTrailer(body, crc');
    var head, u := body[..|body| - 2], body[|body| - 2..];
    assert body == head + u;
    HitsAtEnd(head, u, u, crc, crc');
    WireHead(u, u, crc, crc');
    var w := Xor(Bits(u + crc), Bits(u + crc'));
    assert forall i :: 0 <= i < 16 ==> w[i] == w[..16][i];
    NoEscapeWithout(w);
  }

  lemma BurstInBody(body: seq<byte>, crc: seq<byte>, body': seq<byte>, crc': seq<byte>, p: nat)
    requires |crc| == |crc'| == 2 && |body| == |body'| >= 2
    requires Accepts(body, crc) && body != body' && p + 16 <= 8 * |body|
    requires AgreeOutsideBurst(Bits(body + crc), Bits(body' + crc'), p)
    ensures !Accepts(body', crc') && !HitsBoundary(body + crc, body' + crc')
  {
    hide Bits, IsEscape, HitsBoundary, ByteBits;
    var n := |body|;
    BitsConcat(body, crc);
    BitsConcat(body', crc');
    assert crc == crc' by {
      assert Bits(crc) == Bits(body + crc)[8 * n..] == Bits(body' + crc')[8 * n..] == Bits(crc');
      BitsInjective(crc, crc');
    }
    assert Bits(body) == Bits(body + crc)[..8 * n] && Bits(body') == Bits(body' + crc')[..8 * n];
    ChecksumDetectsBurst(body, body', p);
    if HitsBoundary(body + crc, body' + crc') {
      HitsTail(body, crc, body', crc);
    }
  }

  lemma HitsTail(body: seq<byte>, crc: seq<byte>, body': seq<byte>, crc': seq<byte>)
    requires |crc| == |crc'| == 2 && |body| == |body'| >= 2
    requires HitsBoundary(body + crc, body' + crc')
    ensures crc != crc'
  {
    hide Bits, IsEscape;
    var n := |body|;
    var u, v := body[n - 2..], body'[n - 2..];
    assert (body + crc)[n - 2..] == u + crc && (body' + crc')[n - 2..] == v + crc';
    var w := Xor(Bits(u + crc), Bits(v + crc'));
    if crc == crc' {
      BitsConcat(u, crc);
      BitsConcat(v, crc);
      NoEscapeWithout(w);
    }
  }

  lemma BurstOnConcat(a: seq<byte>, b: seq<byte>, a': seq<byte>, b': seq<byte>, p: nat)
    requires AgreeOutsideBurst(Bits(a + b), Bits(a' + b'), p)
    ensures AgreeOutsideBurst(Bits(a) + Bits(b), Bits(a') + Bits(b'), p)
  {
    hide Bits, AgreeOutsideBurst;
    BitsConcat(a, b);
    BitsConcat(a', b');
  }

  /** A burst q bits after a prefix leaves the prefix undamaged. */
  lemma BeforeBurst(a: seq<byte>, b: seq<byte>, a': seq<byte>, b': seq<byte>, q: nat)
    requires |a| == |a'|
    requires AgreeOutsideBurst(Bits(a + b), Bits(a' + b'), |Bits(a)| + q)
    ensures a == a'
  {
    hide Bits, AgreeOutsideBurst;
    BurstOnConcat(a, b, a', b', |Bits(a)| + q);
    BurstSplit(Bits(a), Bits(b), Bits(a'), Bits(b'), q);
    BitsInjective(a, a');
  }

  lemma AfterPrefix(a: seq<byte>, b: seq<byte>, a': seq<byte>, b': seq<byte>, q: nat)
    requires |a| == |a'|
    requires AgreeOutsideBurst(Bits(a + b), Bits(a' + b'), |Bits(a)| + q)
    ensures AgreeOutsideBurst(Bits(b), Bits(b'), q)
  {
    BurstOnConcat(a, b, a', b', |Bits(a)| + q);
    BurstSplit(Bits(a), Bits(b), Bits(a'), Bits(b'), q);
  }

  lemma BurstSplit(a: seq<bool>, b: seq<bool>, x: seq<bool>, y: seq<bool>, q: nat)
    requires |a| == |x| && AgreeOutsideBurst(a + b, x + y, |a| + q)
    ensures a == x && AgreeOutsideBurst(b, y, q)
  {
    forall i | 0 <= i < |a|
      ensures a[i] == x[i]
    {
      assert (a + b)[i] == (x + y)[i];
    }
    forall i | 0 <= i < |b| && !(q <= i < q + 16)
      ensures b[i] == y[i]
    {
      assert (a + b)[|a| + i] == (x + y)[|a| + i];
    }
  }
}
