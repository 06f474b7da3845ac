/** What the parser's counters count, in terms of decoding the same bytes in one piece: the frames
    and the rejections of each kind that a decoder meets which skips what it rejects. */
module VoxLinkCounters {
  import opened Crc16
  import opened CrcTrailer
  import opened VoxLinkCodec
  import opened VoxLinkStream
  import opened VoxLinkReception
  import opened GoldenVectors

  /** The message types of VoxLink v1, those reserved for later included. */
  const DEFINED_TYPES: seq<byte> := [
    0x01, 0x02, 0x03, 0x04, 0x05, 0x06, 0x07, 0x08, 0x09, 0x0A, 0x0B, 0x0C, 0x0D, 0x0E, 0x0F,
    0x10, 0x11, 0x12, 0x60, 0x61, 0x62, 0x63, 0x20, 0x21, 0x22, 0x23, 0x30, 0x40]

  lemma KnownTypeIffDefined(t: byte)
    ensures KnownType(t) <==> t in DEFINED_TYPES
  {
    if KnownType(t) {
      var i := if t <= 0x12 then t - 1 else if 0x60 <= t then t - 0x60 + 18 else if t <= 0x23 then t - 0x20 + 22
               else if t == 0x30 then 26 else 27;
      assert DEFINED_TYPES[i] == t;
    }
  }

  /** How many of the frames have a type outside that list. */
  function Undefined(fs: seq<Frame>): nat {
    if fs == [] then 0 else (if fs[0].msgType in DEFINED_TYPES then 0 else 1) + Undefined(fs[1..])
  }

  lemma {:induction false} UnknownIsUndefined(fs: seq<Frame>)
    ensures UnknownAmong(fs) == Undefined(fs)
    decreases |fs|
  {
    hide KnownType;
    if fs != [] {
      KnownTypeIffDefined(fs[0].msgType);
      UnknownIsUndefined(fs[1..]);
    }
  }

  /** What is turned down where decode_frame still wants more bytes: a header that is all there. */
  function EarlyRejection(data: seq<byte>): seq<DecodeStatus> {
    if |data| < HEADER_SIZE then []
    else if data[2] / 16 != VERSION_MAJOR then [UnsupportedVersion]
    else if GetU16(data[6], data[7]) > MAX_PAYLOAD then [LengthTooLarge]
    else []
  }

  /** The rejections met by `decode_frame` and the skip rule, false start marks aside. */
  function Rejections(data: seq<byte>): seq<DecodeStatus>
    decreases |data|
  {
    match Decode(data)
    case Decoded(_, n) => FrameBytesDecode(data); Rejections(data[n..])
    case Rejected(status) =>
      if status == ShortBuffer then EarlyRejection(data)
      else if status == BadSof then Rejections(data[1..])
      else [status] + Rejections(data[Skip(data)..])
  }

  function Count(statuses: seq<DecodeStatus>, status: DecodeStatus): nat {
    if statuses == [] then 0 else (if statuses[0] == status then 1 else 0) + Count(statuses[1..], status)
  }

  // ---------------------------------------------------------------------
  // The parser's events are those rejections
  // ---------------------------------------------------------------------

  function StatusOf(e: Event): seq<DecodeStatus> {
    match e
    case Valid(_) => []
    case WrongVersion => [UnsupportedVersion]
    case WrongLength => [LengthTooLarge]
    case WrongCrc => [BadCrc]
  }

  function Statuses(events: seq<Event>): seq<DecodeStatus> {
    if events == [] then [] else StatusOf(events[0]) + Statuses(events[1..])
  }

  lemma FirstStatus(e: Event, rest: seq<Event>)
    ensures Statuses([e] + rest) == StatusOf(e) + Statuses(rest)
  {
    assert ([e] + rest)[1..] == rest;
  }

  lemma AtMostOneByte(data: seq<byte>)
    requires |data| <= 1
    ensures Run([], data).events == []
  {
    if data != [] {
      HuntingStep(data[0]);
    }
  }

  lemma EarlyHeader(data: seq<byte>)
    requires HEADER_SIZE <= |data| < HEADER_SIZE + CRC_SIZE && StartsFrame(data) && EarlyRejection(data) != []
    ensures Statuses(Run([], data).events) == EarlyRejection(data)
  {
    hide Run, Statuses;
    assert data[..7] + [data[7]] == data[..8];
    Candidate(data, HEADER_SIZE);
    AtMostOneByte(data[HEADER_SIZE..]);
    var e := if data[2] / 16 != VERSION_MAJOR then WrongVersion else WrongLength;
    FirstStatus(e, []);
    NoStatus();
  }

  lemma NoStatus()
    ensures Statuses([]) == []
  {
  }

  lemma ShortStatuses(data: seq<byte>)
    requires Decode(data) == Rejected(ShortBuffer)
    ensures Statuses(Run([], data).events) == EarlyRejection(data)
  {
    hide Accepts, Run, Statuses;
    NoStatus();
    if |data| < 2 {
      AtMostOneByte(data);
    } else if EarlyRejection(data) == [] {
      assert [] + data == data;
      Collect([], data);
    } else {
      EarlyHeader(data);
    }
  }

  lemma {:induction false} EventsAreRejections(data: seq<byte>)
    ensures Statuses(Run([], data).events) == Rejections(data)
    decreases |data|
  {
    hide Decode, Run, Step, Statuses, EarlyRejection;
    match Decode(data)
    case Decoded(f, n) =>
      FrameBytesDecode(data);
      RunDecoded(data);
      EventsAreRejections(data[n..]);
      FirstStatus(Valid(f), Run([], data[n..]).events);
    case Rejected(status) =>
      if status == ShortBuffer {
        ShortStatuses(data);
      } else {
        var rest := Run([], data[Skip(data)..]).events;
        EventsAreRejections(data[Skip(data)..]);
        match status {
          case BadSof => RunBadSof(data);
          case BadCrc => RunBadCrc(data); FirstStatus(WrongCrc, rest);
          case UnsupportedVersion => RunBadHeader(data); FirstStatus(WrongVersion, rest);
          case LengthTooLarge => RunBadHeader(data); FirstStatus(WrongLength, rest);
        }
      }
  }

  lemma CountFirst(first: seq<DecodeStatus>, rest: seq<DecodeStatus>)
    requires |first| <= 1
    ensures forall x: DecodeStatus ::
              Count(first + rest, x) == (if first != [] && first[0] == x then 1 else 0) + Count(rest, x)
  {
    if first == [] {
      assert first + rest == rest;
    } else {
      assert (first + rest)[1..] == rest;
    }
  }

  lemma CountOne(x: DecodeStatus, y: DecodeStatus)
    ensures Count([x], y) == if x == y then 1 else 0
  {
    assert [x][1..] == [];
  }

  lemma {:induction false} TallyIsCount(c: Counters, events: seq<Event>)
    ensures var t, r := TallyAll(c, events), Statuses(events);
            && t.crcErrors == c.crcErrors + Count(r, BadCrc)
            && t.lengthErrors == c.lengthErrors + Count(r, LengthTooLarge)
            && t.unsupportedVersion == c.unsupportedVersion + Count(r, UnsupportedVersion)
            && t.parserResyncs == c.parserResyncs + |r|
    decreases |events|
  {
    hide KnownType;
    if events != [] {
      hide Count;
      TallyIsCount(Tally(c, events[0]), events[1..]);
      CountFirst(StatusOf(events[0]), Statuses(events[1..]));
    }
  }

  /** Whatever bytes a hunting parser is fed, each counter rises by what it is named after: bytes,
      frames, frames of undefined type, and rejections for CRC, length and version, each of which is
      also one resynchronisation. */
  lemma CountersAreRejections(s: Reception, data: seq<byte>)
    requires s.held == []
    ensures var c, d := s.counters, FedBy(s, data).counters;
            && d.bytesFed == c.bytesFed + |data|
            && d.framesValid == c.framesValid + |Scan(data)|
            && d.unknownType == c.unknownType + Undefined(Scan(data))
            && d.crcErrors == c.crcErrors + Count(Rejections(data), BadCrc)
            && d.lengthErrors == c.lengthErrors + Count(Rejections(data), LengthTooLarge)
            && d.unsupportedVersion == c.unsupportedVersion + Count(Rejections(data), UnsupportedVersion)
            && d.parserResyncs == c.parserResyncs + |Rejections(data)|
            && d.framingErrors == c.framingErrors
  {
    hide Step, Frames, TallyAll, Run, ReceiveAll, Scan, Rejections, Count, Undefined, UnknownAmong, Statuses;
    var extra := s.(counters := s.counters.(bytesFed := s.counters.bytesFed + |data|));
    var events := Run([], data).events;
    ReceivesRun(extra, data);
    TallyAddsUp(extra.counters, events);
    TallyIsCount(extra.counters, events);
    Untallied(extra.counters, extra.counters.bytesFed, extra.counters.framesDropped, events);
    StreamingIsScanning(data);
    EventsAreRejections(data);
    UnknownIsUndefined(Scan(data));
  }

  /** HELLO with a corrupted CRC, fed to a new parser: one CRC error, one resynchronisation, no frame. */
  lemma HelloBadCrcCounted()
    ensures var data := Wire(0x10, 0x01, 0x00, 0x2A, [0x10, 0x01, 0x00], 0xD5, 0xDE);
            var t := FedBy(Reception([], [], ZERO_COUNTERS), data);
            t.queued == [] && t.counters == Counters(13, 0, 0, 1, 0, 0, 0, 0, 1)
  {
    hide Decode, Wire, FedBy, Scan, Rejections, Undefined;
    var data := Wire(0x10, 0x01, 0x00, 0x2A, [0x10, 0x01, 0x00], 0xD5, 0xDE);
    var s := Reception([], [], ZERO_COUNTERS);
    HelloVectors();
    WireLength(data);
    OnlyBadCrc(data);
    CountersAreRejections(s, data);
    CountOne(BadCrc, BadCrc);
    CountOne(BadCrc, LengthTooLarge);
    CountOne(BadCrc, UnsupportedVersion);
    NoneUndefined();
    NothingReceived(s, data);
  }

  lemma NoneUndefined()
    ensures Undefined([]) == 0
  {
  }

  lemma WireLength(data: seq<byte>)
    requires data == Wire(0x10, 0x01, 0x00, 0x2A, [0x10, 0x01, 0x00], 0xD5, 0xDE)
    ensures |data| == 13 == FrameSize(data)
  {
  }

  lemma OnlyBadCrc(data: seq<byte>)
    requires Decode(data) == Rejected(BadCrc) && |data| == FrameSize(data)
    ensures Rejections(data) == [BadCrc] && Scan(data) == []
  {
    hide Decode;
    EmptyIsShort();
    assert data[|data|..] == [];
  }

  /** Without frames a feed neither queues nor drops. */
  lemma NothingReceived(s: Reception, data: seq<byte>)
    requires s.held == [] && Scan(data) == []
    ensures FedBy(s, data).queued == s.queued && FedBy(s, data).counters.framesDropped == s.counters.framesDropped
  {
    hide Step, Frames, TallyAll, Run, ReceiveAll, Scan;
    StreamingIsScanning(data);
    ReceivesRun(s.(counters := s.counters.(bytesFed := s.counters.bytesFed + |data|)), data);
    assert s.queued + [] == s.queued;
  }
}
