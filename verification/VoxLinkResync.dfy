/** A receiver that joins a sound, endless VoxLink stream and never recovers. */
module VoxLinkResync {
  import opened Crc16
  import opened VoxLinkCodec
  import opened VoxLinkStream
  import opened GoldenVectors

  function Beacon(): (f: Frame)
    ensures WellFormed(f)
  {
    Frame(0x10, 0x60, 0x00, 0x00, DECOY)
  }

  /** The same frame sent again and again. */
  function Copies(f: Frame, n: nat): (fs: seq<Frame>)
    requires WellFormed(f)
    ensures |fs| == n && AllWellFormed(fs)
  {
    seq(n, _ => f)
  }

  lemma BeaconBytes()
    ensures FrameBytes(Beacon()) == Wire(0x10, 0x60, 0x00, 0x00, DECOY, 0xCD, 0x16)
  {
    hide Decode, FrameBytes;
    var wire := Wire(0x10, 0x60, 0x00, 0x00, DECOY, 0xCD, 0x16);
    BeaconDecodes();
    FrameBytesDecode(wire);
    assert |wire| == 18;
    assert wire[..18] == wire;
  }

  /** What a receiver sees that is switched on one header late. */
  function Late(f: Frame, n: nat): seq<byte>
    requires WellFormed(f)
  {
    FrameBytes(f)[HEADER_SIZE..] + Stream(Copies(f, n))
  }

  lemma LateBegins(f: Frame, n: nat)
    requires WellFormed(f) && n > 0
    ensures var wire := FrameBytes(f);
            Late(f, n) == wire[HEADER_SIZE..] + wire[..HEADER_SIZE] + Late(f, n - 1)
  {
    hide FrameBytes;
    var wire := FrameBytes(f);
    var a, b, rest := wire[..HEADER_SIZE], wire[HEADER_SIZE..], Copies(f, n - 1);
    assert Copies(f, n)[1..] == rest;
    assert Stream(Copies(f, n)) == wire + Stream(rest);
    assert wire == a + b;
    SplitTurn(b, a, b, Stream(rest));
  }

  lemma SplitTurn(a: seq<byte>, b: seq<byte>, c: seq<byte>, d: seq<byte>)
    ensures a + ((b + c) + d) == a + b + (c + d)
  {
  }

  lemma TurnIsRejected()
    ensures var wire := FrameBytes(Beacon());
            Run([], wire[8..] + wire[..8]) == Outcome([], [WrongCrc])
  {
    hide Decode, Run, FrameBytes, Wire, FrameSize;
    BeaconBytes();
    DecoyTurnsBeacon();
    DecoyIsDamaged();
    WireSize(0x10, 0x00, 0x00, 0x00, [0xCD, 0x16, 0xA5, 0x5A, 0x10, 0x60, 0x00, 0x00], 0x08, 0x00);
    DamagedAlone(FrameBytes(Beacon())[8..] + FrameBytes(Beacon())[..8]);
  }

  lemma WireSize(version: byte, msgType: byte, flags: byte, seqNo: byte, payload: seq<byte>,
                 lo: byte, hi: byte)
    requires |payload| < 256
    ensures var data := Wire(version, msgType, flags, seqNo, payload, lo, hi);
            |data| == 10 + |payload| == FrameSize(data)
  {
  }

  /** A damaged frame on its own. */
  lemma DamagedAlone(data: seq<byte>)
    requires Decode(data) == Rejected(BadCrc) && |data| == FrameSize(data)
    ensures Run([], data) == Outcome([], [WrongCrc])
  {
    hide Decode;
    RunBadCrc(data);
    assert data[|data|..] == [];
  }

  lemma TailIsShort()
    ensures Frames(Run([], FrameBytes(Beacon())[8..]).events) == []
  {
    hide Run, FrameBytes;
    BeaconBytes();
    var tail := FrameBytes(Beacon())[8..];
    assert tail == DECOY + [0xCD, 0x16];
    assert Decode(tail) == Rejected(ShortBuffer);
    ShortDeliversNothing(tail);
  }

  /** However many sound frames follow back to back, none is ever received. */
  lemma {:induction false} NeverRecovers(n: nat)
    ensures Frames(Run([], Late(Beacon(), n)).events) == []
    decreases n
  {
    hide Run, FrameBytes;
    var wire := FrameBytes(Beacon());
    if n == 0 {
      TailIsShort();
      assert Late(Beacon(), 0) == wire[8..] + [] == wire[8..];
    } else {
      LateBegins(Beacon(), n);
      TurnIsRejected();
      RunConcat([], wire[8..] + wire[..8], Late(Beacon(), n - 1));
      NeverRecovers(n - 1);
      RejectionIsNoFrame(WrongCrc, Run([], Late(Beacon(), n - 1)).events);
    }
  }
}
