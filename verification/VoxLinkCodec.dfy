/** Frame encoding and one-shot decoding of VoxLink v1. */
module VoxLinkCodec {
  import opened Crc16
  import opened CrcTrailer

  const SOF0: byte := 0xA5
  const SOF1: byte := 0x5A
  const VERSION: byte := 0x10
  const VERSION_MAJOR := 1
  const HEADER_SIZE := 8
  const CRC_SIZE := 2
  const MAX_PAYLOAD := 512

  datatype Frame = Frame(version: byte, msgType: byte, flags: byte, seqNo: byte, payload: seq<byte>)

  datatype DecodeStatus = ShortBuffer | BadSof | UnsupportedVersion | LengthTooLarge | BadCrc

  datatype DecodeResult = Decoded(frame: Frame, consumed: nat) | Rejected(status: DecodeStatus)

  /** `get_u16`. */
  function GetU16(lo: byte, hi: byte): nat {
    lo + 256 * hi
  }

  /** `put_u16`, for values that fit. */
  function PutU16(n: nat): (b: seq<byte>)
    requires n < 65536
    ensures |b| == 2
  {
    [n % 256, n / 256]
  }

  /** What the CRC covers: everything between the start-of-frame marks and the trailer. */
  function Body(f: Frame): (b: seq<byte>)
    requires |f.payload| < 65536
    ensures |b| == 6 + |f.payload|
  {
    [f.version, f.msgType, f.flags, f.seqNo] + PutU16(|f.payload|) + f.payload
  }

  /** The bytes of a frame on the wire. */
  function FrameBytes(f: Frame): (b: seq<byte>)
    requires |f.payload| < 65536
    ensures |b| == HEADER_SIZE + |f.payload| + CRC_SIZE
  {
    [SOF0, SOF1] + Body(f) + Trailer(Checksum(Body(f)))
  }

  /** A frame this protocol version can carry. */
  predicate WellFormed(f: Frame) {
    f.version / 16 == VERSION_MAJOR && |f.payload| <= MAX_PAYLOAD
  }

  /** `encode_frame` into a caller's buffer: the number of bytes written, or 0 when refused. */
  method EncodeFrame(msgType: byte, flags: byte, seqNo: byte, payload: seq<byte>, out: array<byte>)
    returns (n: nat)
    modifies out
    ensures var fits := |payload| <= MAX_PAYLOAD && HEADER_SIZE + |payload| + CRC_SIZE <= out.Length;
            && (!fits ==> n == 0 && out[..] == old(out[..]))
            && (fits ==>
                  && n == HEADER_SIZE + |payload| + CRC_SIZE
                  && out[..n] == FrameBytes(Frame(VERSION, msgType, flags, seqNo, payload))
                  && out[n..] == old(out[n..]))
  {
    if |payload| > MAX_PAYLOAD {
      return 0;
    }
    var total := HEADER_SIZE + |payload| + CRC_SIZE;
    if out.Length < total {
      return 0;
    }
    hide Update, Checksum, Trailer, Body;
    ghost var f := Frame(VERSION, msgType, flags, seqNo, payload);
    var at := HEADER_SIZE + |payload|;
    PutFront(out, msgType, flags, seqNo, payload);
    HeaderThenPayload(f);
    assert out[2..at] == out[..at][2..] == Body(f);
    var crc := Crc16Update(INITIAL, out[2..at]);
    ChecksumOf(Body(f));
    PutBytes(out, at, Trailer(crc));
    n := total;
  }

  /** Everything before the CRC. */
  method PutFront(out: array<byte>, msgType: byte, flags: byte, seqNo: byte, payload: seq<byte>)
    requires |payload| < 65536 && HEADER_SIZE + |payload| <= out.Length
    modifies out
    ensures var at := HEADER_SIZE + |payload|;
            && out[..at] == [SOF0, SOF1, VERSION, msgType, flags, seqNo] + PutU16(|payload|) + payload
            && out[at..] == old(out[at..])
  {
    hide PutU16;
    PutBytes(out, 0, [SOF0, SOF1, VERSION, msgType, flags, seqNo] + PutU16(|payload|));
    assert out[HEADER_SIZE..][|payload|..] == old(out[HEADER_SIZE..])[|payload|..];
    PutBytes(out, HEADER_SIZE, payload);
  }

  lemma HeaderThenPayload(f: Frame)
    requires |f.payload| < 65536
    ensures var front := [SOF0, SOF1, f.version, f.msgType, f.flags, f.seqNo] + PutU16(|f.payload|) + f.payload;
            front == [SOF0, SOF1] + Body(f) && front[2..] == Body(f)
  {
  }

  lemma ChecksumOf(data: seq<byte>)
    ensures Checksum(data) == Update(INITIAL, data)
  {
  }

  /** `memcpy(out + at, bytes, len)`. */
  method PutBytes(out: array<byte>, at: nat, bytes: seq<byte>)
    requires at + |bytes| <= out.Length
    modifies out
    ensures out[..at] == old(out[..at])
    ensures out[..at + |bytes|] == old(out[..at]) + bytes
    ensures out[at..at + |bytes|] == bytes
    ensures out[at + |bytes|..] == old(out[at + |bytes|..])
  {
    forall i | 0 <= i < |bytes| {
      out[at + i] := bytes[i];
    }
  }

  /** `decode_frame`: exactly one frame at the start of the data. */
  function Decode(data: seq<byte>): DecodeResult {
    if |data| < 2 then Rejected(ShortBuffer)
    else if data[0] != SOF0 || data[1] != SOF1 then Rejected(BadSof)
    else if |data| < HEADER_SIZE + CRC_SIZE then Rejected(ShortBuffer)
    else if data[2] / 16 != VERSION_MAJOR then Rejected(UnsupportedVersion)
    else
      var len := GetU16(data[6], data[7]);
      if len > MAX_PAYLOAD then Rejected(LengthTooLarge)
      else if |data| < HEADER_SIZE + len + CRC_SIZE then Rejected(ShortBuffer)
      else if !Accepts(data[2..HEADER_SIZE + len], data[HEADER_SIZE + len..HEADER_SIZE + len + CRC_SIZE])
      then Rejected(BadCrc)
      else Decoded(Frame(data[2], data[3], data[4], data[5], data[HEADER_SIZE..HEADER_SIZE + len]),
                   HEADER_SIZE + len + CRC_SIZE)
  }

  lemma BytesOfU16(n: nat)
    requires n < 65536
    ensures GetU16(PutU16(n)[0], PutU16(n)[1]) == n
  {
  }

  /** Encoding then decoding returns the frame and its size, whatever follows it. */
  lemma DecodeFrameBytes(f: Frame, rest: seq<byte>)
    requires WellFormed(f)
    ensures Decode(FrameBytes(f) + rest) == Decoded(f, |FrameBytes(f)|)
  {
    hide Checksum, Trailer, Accepts;
    var data := FrameBytes(f) + rest;
    var len := |f.payload|;
    BytesOfU16(len);
    AcceptsOnlyTrailer(Body(f), Trailer(Checksum(Body(f))));
    assert data[2..HEADER_SIZE + len] == Body(f);
    assert data[HEADER_SIZE + len..HEADER_SIZE + len + CRC_SIZE] == Trailer(Checksum(Body(f)));
    assert data[HEADER_SIZE..HEADER_SIZE + len] == f.payload;
  }

  /** Whatever decodes is a well-formed frame, and re-encoding it gives back the bytes consumed. */
  lemma FrameBytesDecode(data: seq<byte>)
    requires Decode(data).Decoded?
    ensures var f, n := Decode(data).frame, Decode(data).consumed;
            WellFormed(f) && n <= |data| && data[..n] == FrameBytes(f)
  {
    hide Checksum, Trailer, Accepts;
    var f, n := Decode(data).frame, Decode(data).consumed;
    var len := |f.payload|;
    var body, crc := data[2..HEADER_SIZE + len], data[HEADER_SIZE + len..n];
    AcceptsOnlyTrailer(body, crc);
    assert body == Body(f);
    assert data[..n] == [SOF0, SOF1] + body + crc;
  }

  /** A decoder accepts exactly the data that begin with the bytes of a well-formed frame. */
  lemma DecodesIffStartsWithFrame(data: seq<byte>)
    ensures Decode(data).Decoded? <==> exists f :: WellFormed(f) && FrameBytes(f) <= data
  {
    hide Decode, FrameBytes;
    if Decode(data).Decoded? {
      FrameBytesDecode(data);
      assert FrameBytes(Decode(data).frame) <= data;
    }
    if f :| WellFormed(f) && FrameBytes(f) <= data {
      assert data == FrameBytes(f) + data[|FrameBytes(f)|..];
      DecodeFrameBytes(f, data[|FrameBytes(f)|..]);
    }
  }

  /** No frame's bytes begin another's: frames are delimited without looking past their end. */
  lemma PrefixFree(f: Frame, g: Frame)
    requires WellFormed(f) && WellFormed(g) && FrameBytes(f) <= FrameBytes(g)
    ensures f == g
  {
    hide Decode, FrameBytes;
    assert FrameBytes(g) == FrameBytes(f) + FrameBytes(g)[|FrameBytes(f)|..];
    DecodeFrameBytes(f, FrameBytes(g)[|FrameBytes(f)|..]);
    assert FrameBytes(g) + [] == FrameBytes(g);
    DecodeFrameBytes(g, []);
  }

  predicate AllWellFormed(fs: seq<Frame>) {
    forall i :: 0 <= i < |fs| ==> WellFormed(fs[i])
  }

  /** Frames sent back to back. */
  function Stream(fs: seq<Frame>): seq<byte>
    requires AllWellFormed(fs)
  {
    if fs == [] then [] else FrameBytes(fs[0]) + Stream(fs[1..])
  }

  /** Reads frames with `decode_frame` until it reports something else. */
  function DecodeAll(data: seq<byte>): (seq<Frame>, seq<byte>)
    decreases |data|
  {
    match Decode(data)
    case Rejected(_) => ([], data)
    case Decoded(f, n) =>
      FrameBytesDecode(data);
      var (fs, rest) := DecodeAll(data[n..]);
      ([f] + fs, rest)
  }

  /** Back-to-back frames decode to exactly the frames sent. */
  lemma {:induction false} DecodeAllStream(fs: seq<Frame>)
    requires AllWellFormed(fs)
    ensures DecodeAll(Stream(fs)) == (fs, [])
    decreases |fs|
  {
    hide Decode, FrameBytes;
    if fs == [] {
      assert Decode([]) == Rejected(ShortBuffer) by {
        EmptyIsShort();
      }
    } else {
      var first, rest := FrameBytes(fs[0]), Stream(fs[1..]);
      DecodeFrameBytes(fs[0], rest);
      assert (first + rest)[|first|..] == rest;
      DecodeAllStream(fs[1..]);
      assert fs == [fs[0]] + fs[1..];
    }
  }

  lemma EmptyIsShort()
    ensures Decode([]) == Rejected(ShortBuffer)
  {
  }

  /** The bits of two frames that differ somewhere in the checked bytes or the CRC,
      by one burst of at most 16 bits that leaves the length field alone. */
  ghost predicate DamagedByBurst(x: seq<byte>, y: seq<byte>) {
    && |x| == |y| >= HEADER_SIZE + CRC_SIZE
    && x != y
    && x[..2] == y[..2] && x[6..8] == y[6..8]
    && exists p: nat :: AgreeOutsideBurst(Bits(x[2..]), Bits(y[2..]), p)
  }

  /** A damaged frame of unchanged length and supported version is delivered
      exactly when the burst is one of the boundary patterns; otherwise it is BadCrc. */
  lemma DamagedFrameVerdict(f: Frame, y: seq<byte>)
    requires WellFormed(f) && DamagedByBurst(FrameBytes(f), y)
    requires y[2] / 16 == VERSION_MAJOR
    ensures Decode(y).Decoded? <==> HitsBoundary(FrameBytes(f)[2..], y[2..])
    ensures !Decode(y).Decoded? ==> Decode(y) == Rejected(BadCrc)
  {
    hide Bits, AgreeOutsideBurst, HitsBoundary, Accepts, Checksum, Trailer;
    var x := FrameBytes(f);
    var len := |f.payload|;
    var body, crc := Body(f), Trailer(Checksum(Body(f)));
    assert x[2..] == body + crc;
    var body', crc' := y[2..HEADER_SIZE + len], y[HEADER_SIZE + len..];
    assert y[2..] == body' + crc';
    BytesOfU16(len);
    assert y[6] == y[6..8][0] == x[6..8][0] == PutU16(len)[0];
    assert y[7] == y[6..8][1] == x[6..8][1] == PutU16(len)[1];
    assert body + crc != body' + crc' by {
      assert x == x[..2] + x[2..] && y == y[..2] + y[2..];
    }
    AcceptsOnlyTrailer(body, crc);
    var p: nat :| AgreeOutsideBurst(Bits(x[2..]), Bits(y[2..]), p);
    BurstVerdict(body, crc, body', crc', p);
    assert y[HEADER_SIZE + len..HEADER_SIZE + len + CRC_SIZE] == crc';
  }
}
