/** The streaming frame parser: a byte-driven state machine over fixed buffers,
    its counters, and the bounded queue between it and its consumer. */
module VoxLinkParser {
  import opened Crc16
  import opened CrcTrailer
  import opened VoxLinkCodec
  import opened VoxLinkReception
  import opened VoxLinkStream
  import RingIndices

  datatype Mode = Sof0 | Sof1 | Header | Payload | Crc

  class Parser {
    var mode: Mode
    const header: array<byte>
    var headerPos: nat
    const payload: array<byte>
    var payloadPos: nat
    const crcBytes: array<byte>
    var crcPos: nat
    var payloadLen: nat
    const queue: array<Frame>
    var head: nat
    var tail: nat
    var counters: Counters

    ghost predicate Buffers() {
      && header.Length == 6 && payload.Length == MAX_PAYLOAD && crcBytes.Length == CRC_SIZE
      && queue.Length == QUEUE_CAPACITY
      && header != payload && header != crcBytes && payload != crcBytes
    }

    ghost predicate QueueValid()
      reads `head, `tail
    {
      queue.Length == QUEUE_CAPACITY && head < QUEUE_CAPACITY && tail < QUEUE_CAPACITY
    }

    ghost predicate HeaderRead()
      requires Buffers()
      reads `headerPos, `payloadLen, header
    {
      && headerPos == 6
      && header[0] / 16 == VERSION_MAJOR
      && payloadLen == GetU16(header[4], header[5]) <= MAX_PAYLOAD
    }

    ghost predicate Valid()
      reads `mode, `headerPos, `payloadPos, `crcPos, `payloadLen, header
    {
      && Buffers()
      && match mode
         case Sof0 => headerPos == 0
         case Sof1 => headerPos == 0
         case Header => headerPos < 6
         case Payload => HeaderRead() && payloadPos < payloadLen
         case Crc => HeaderRead() && payloadPos == payloadLen && crcPos < CRC_SIZE
    }

    /** The bytes of the candidate frame received so far. */
    ghost function Held(): (h: seq<byte>)
      requires Valid()
      reads `mode, `headerPos, `payloadPos, `crcPos, `payloadLen, header, payload, crcBytes
    {
      match mode
      case Sof0 => []
      case Sof1 => [SOF0]
      case Header => [SOF0, SOF1] + header[..headerPos]
      case Payload => [SOF0, SOF1] + header[..] + payload[..payloadPos]
      case Crc => [SOF0, SOF1] + header[..] + payload[..payloadLen] + crcBytes[..crcPos]
    }

    ghost predicate Holds(h: seq<byte>): (b: bool)
      ensures b ==> Partial(h)
      reads `mode, `headerPos, `payloadPos, `crcPos, `payloadLen, header, payload, crcBytes
    {
      Valid() && Held() == h && Partial(h)
    }

    /** The frames waiting, oldest first. */
    ghost function Queued(): seq<Frame>
      requires QueueValid()
      reads `head, `tail, queue
    {
      RingIndices.Contents(queue[..], head, tail)
    }

    constructor ()
      ensures Holds([]) && QueueValid() && Queued() == [] && counters == ZERO_COUNTERS
      ensures fresh(header) && fresh(payload) && fresh(crcBytes) && fresh(queue)
    {
      mode := Sof0;
      header := new byte[6];
      payload := new byte[MAX_PAYLOAD];
      crcBytes := new byte[CRC_SIZE];
      queue := new Frame[QUEUE_CAPACITY];
      headerPos, payloadPos, crcPos, payloadLen, head, tail := 0, 0, 0, 0, 0, 0;
      counters := ZERO_COUNTERS;
    }

    method Reset()
      requires Buffers()
      modifies this
      ensures Holds([]) && QueueValid() && Queued() == [] && counters == ZERO_COUNTERS
    {
      mode := Sof0;
      headerPos, payloadPos, crcPos, payloadLen, head, tail := 0, 0, 0, 0, 0, 0;
      counters := ZERO_COUNTERS;
    }

    method BeginResync()
      requires Buffers()
      modifies `mode, `headerPos, `payloadPos, `crcPos, `payloadLen, `counters
      ensures Holds([])
      ensures counters == old(counters).(parserResyncs := old(counters).parserResyncs + 1)
    {
      counters := counters.(parserResyncs := counters.parserResyncs + 1);
      mode := Sof0;
      headerPos, payloadPos, crcPos, payloadLen := 0, 0, 0, 0;
    }

    method HeaderByte(b: byte, ghost held: seq<byte>)
      requires Holds(held) && mode == Header
      modifies `mode, `headerPos, `payloadPos, `crcPos, `payloadLen, `counters, header
      ensures Holds(Step(held, b).held)
      ensures EmittedBy(Step(held, b).events) == Nothing
      ensures counters == TallyAll(old(counters), Step(held, b).events)
    {
      hide Step, TallyAll;
      StepInHeader(held, b);
      TallyOne(counters);
      header[headerPos] := b;
      headerPos := headerPos + 1;
      ghost var h := held + [b];
      assert [SOF0, SOF1] + header[..headerPos] == h;
      if headerPos < 6 {
        return;
      }
      assert header[..6] == header[..];
      EndHeader(h);
    }

    /** The header is complete: look at version and length. */
    method EndHeader(ghost h: seq<byte>)
      requires Buffers() && mode == Header && headerPos == 6 && h == [SOF0, SOF1] + header[..]
      modifies `mode, `headerPos, `payloadPos, `crcPos, `payloadLen, `counters
      ensures
        var rejected: seq<Event> :=
          if h[2] / 16 != VERSION_MAJOR then [WrongVersion]
          else if GetU16(h[6], h[7]) > MAX_PAYLOAD then [WrongLength] else [];
        && counters == TallyAll(old(counters), rejected)
        && Holds(if rejected == [] then h else [])
    {
      hide TallyAll;
      TallyOne(counters);
      payloadLen := GetU16(header[4], header[5]);
      assert h[2] == header[0] && h[6] == header[4] && h[7] == header[5];
      if header[0] / 16 != VERSION_MAJOR {
        counters := counters.(unsupportedVersion := counters.unsupportedVersion + 1);
        BeginResync();
      } else if payloadLen > MAX_PAYLOAD {
        counters := counters.(lengthErrors := counters.lengthErrors + 1);
        BeginResync();
      } else {
        payloadPos := 0;
        if payloadLen == 0 {
          mode := Crc;
          crcPos := 0;
        } else {
          mode := Payload;
        }
      }
    }

    method PayloadByte(b: byte, ghost held: seq<byte>)
      requires Holds(held) && mode == Payload
      modifies `mode, `payloadPos, `crcPos, payload
      ensures Holds(Step(held, b).held)
      ensures Step(held, b).events == []
    {
      payload[payloadPos] := b;
      payloadPos := payloadPos + 1;
      ghost var h := held + [b];
      assert [SOF0, SOF1] + header[..] + payload[..payloadPos] == h;
      assert h[2] == header[0] && h[6] == header[4] && h[7] == header[5];
      if payloadPos >= payloadLen {
        mode := Crc;
        crcPos := 0;
      }
    }

    method CompleteFrame(ghost h: seq<byte>) returns (out: Emitted)
      requires Buffers() && HeaderRead()
      requires h == [SOF0, SOF1] + header[..] + payload[..payloadLen] + crcBytes[..]
      modifies `mode, `headerPos, `payloadPos, `crcPos, `payloadLen, `counters
      ensures GoodHeader(h) && |h| == FrameSize(h)
      ensures Holds([])
      ensures out == EmittedBy([Complete(h)])
      ensures counters == Tally(old(counters), Complete(h))
    {
      hide Accepts, Update, Complete, GoodHeader, FrameSize, ByteBits, Step, NatBits;
      var len := payloadLen;
      CandidateParts(header[..], payload[..len], crcBytes[..], h);
      AcceptsCompares(header[..] + payload[..len], crcBytes[..]);
      var crc := Crc16Update(INITIAL, header[..]);
      crc := Crc16Update(crc, payload[..len]);
      UpdateConcat(INITIAL, header[..], payload[..len]);
      if crc != ByteBits(crcBytes[1]) + ByteBits(crcBytes[0]) {
        counters := counters.(crcErrors := counters.crcErrors + 1);
        BeginResync();
        return Nothing;
      }
      var frame := Frame(header[0], header[1], header[2], header[3], payload[..len]);
      counters := counters.(framesValid := counters.framesValid + 1);
      if !KnownType(frame.msgType) {
        counters := counters.(unknownType := counters.unknownType + 1);
      }
      mode := Sof0;
      headerPos, payloadPos, crcPos, payloadLen := 0, 0, 0, 0;
      out := Emit(frame);
    }

    method CrcByte(b: byte, ghost held: seq<byte>) returns (out: Emitted)
      requires Holds(held) && mode == Crc
      modifies `mode, `headerPos, `payloadPos, `crcPos, `payloadLen, `counters, crcBytes
      ensures Holds(Step(held, b).held)
      ensures out == EmittedBy(Step(held, b).events)
      ensures counters == TallyAll(old(counters), Step(held, b).events)
    {
      hide Accepts;
      crcBytes[crcPos] := b;
      crcPos := crcPos + 1;
      ghost var h := held + [b];
      assert [SOF0, SOF1] + header[..] + payload[..payloadLen] + crcBytes[..crcPos] == h;
      assert h[2] == header[0] && h[6] == header[4] && h[7] == header[5];
      out := Nothing;
      if crcPos >= CRC_SIZE {
        assert crcBytes[..2] == crcBytes[..];
        out := CompleteFrame(h);
      }
    }

    /** One received byte; the frame it completed, if any. */
    method HandleByte(b: byte, ghost held: seq<byte>) returns (out: Emitted)
      requires Holds(held)
      modifies `mode, `headerPos, `payloadPos, `crcPos, `payloadLen, `counters, header, payload, crcBytes
      ensures Holds(Step(held, b).held)
      ensures out == EmittedBy(Step(held, b).events)
      ensures counters == TallyAll(old(counters), Step(held, b).events)
    {
      out := Nothing;
      match mode
      case Sof0 =>
        if b == SOF0 {
          mode := Sof1;
        }
      case Sof1 =>
        if b == SOF1 {
          mode := Header;
        } else if b == SOF0 {
          mode := Sof1;
        } else {
          mode := Sof0;
        }
      case Header => HeaderByte(b, held);
      case Payload => PayloadByte(b, held);
      case Crc => out := CrcByte(b, held);
    }

    method EnqueueParsed(frame: Frame)
      requires QueueValid()
      modifies `head, `counters, queue
      ensures QueueValid()
      ensures forall held :: Reception(held, Queued(), counters)
                          == Enqueue(Reception(held, old(Queued()), old(counters)), frame)
    {
      var nextHead := RingIndices.Next(head, QUEUE_CAPACITY);
      if nextHead == tail {
        counters := counters.(framesDropped := counters.framesDropped + 1);
        return;
      }
      RingIndices.Put(queue[..], head, tail, frame);
      queue[head] := frame;
      head := nextHead;
    }

    ghost predicate Is(s: Reception): (b: bool)
      ensures b ==> Partial(s.held)
      reads this, header, payload, crcBytes, queue
    {
      Holds(s.held) && QueueValid() && Queued() == s.queued && counters == s.counters
    }

    method QueueByte(b: byte, ghost s: Reception)
      requires Is(s)
      modifies this, header, payload, crcBytes, queue
      ensures Is(ReceiveByte(s, b))
    {
      hide Step, TallyAll, Partial, Holds;
      var out := HandleByte(b, s.held);
      if out.Emit? {
        EnqueueParsed(out.frame);
      }
    }

    /** `feed` with the queue as its consumer. */
    method Feed(data: seq<byte>, ghost s: Reception)
      requires Is(s)
      modifies this, header, payload, crcBytes, queue
      ensures Is(FedBy(s, data))
    {
      hide ReceiveByte, Holds, Queued, QueueValid, Partial;
      counters := counters.(bytesFed := counters.bytesFed + |data|);
      ghost var now := s.(counters := counters);
      assert Is(now);
      for i := 0 to |data|
        invariant Is(now)
        invariant ReceiveAll(now, data[i..]) == FedBy(s, data)
      {
        QueueByte(data[i], now);
        now := ReceiveByte(now, data[i]);
        assert data[i..][1..] == data[i + 1..];
      }
    }

    /** `feed` with a callback: the frames it is called with. */
    method FeedEach(data: seq<byte>, ghost held: seq<byte>) returns (emitted: seq<Frame>)
      requires Holds(held)
      modifies `mode, `headerPos, `payloadPos, `crcPos, `payloadLen, `counters, header, payload, crcBytes
      ensures var r := Run(held, data);
              && Holds(r.held)
              && emitted == Frames(r.events)
              && counters == TallyAll(old(counters).(bytesFed := old(counters).bytesFed + |data|), r.events)
    {
      hide Step, Partial, Holds, Run, TallyAll, Frames;
      counters := counters.(bytesFed := counters.bytesFed + |data|);
      emitted := [];
      assert data[0..] == data;
      ghost var h, start := held, counters;
      for i := 0 to |data|
        invariant Holds(h)
        invariant var r := Run(h, data[i..]);
                  && Run(held, data).held == r.held
                  && Frames(Run(held, data).events) == emitted + Frames(r.events)
                  && TallyAll(counters, r.events) == TallyAll(start, Run(held, data).events)
      {
        ghost var next := Step(h, data[i]).held;
        RunOn(h, data[i..], counters);
        var out := HandleByte(data[i], h);
        if out.Emit? {
          emitted := emitted + [out.frame];
        }
        assert data[i..][1..] == data[i + 1..];
        h := next;
      }
      assert data[|data|..] == [];
      EndOfRun(h, counters);
    }

    /** Takes the oldest queued frame. */
    method Pop() returns (out: Emitted)
      requires QueueValid()
      modifies `tail
      ensures QueueValid()
      ensures match out
              case Nothing => old(Queued()) == [] == Queued()
              case Emit(f) => old(Queued()) == [f] + Queued()
    {
      if head == tail {
        return Nothing;
      }
      RingIndices.Take(queue[..], head, tail);
      out := Emit(queue[tail]);
      tail := RingIndices.Next(tail, QUEUE_CAPACITY);
    }
  }

  lemma AcceptsCompares(body: seq<byte>, crc: seq<byte>)
    requires |crc| == 2
    ensures Accepts(body, crc) <==> Update(INITIAL, body) == ByteBits(crc[1]) + ByteBits(crc[0])
  {
  }

  /** What a byte received inside the header can lead to. */
  lemma StepInHeader(held: seq<byte>, b: byte)
    requires StartsFrame(held) && |held| < HEADER_SIZE
    ensures var h := held + [b];
            Step(held, b)
            == if |h| == HEADER_SIZE && h[2] / 16 != VERSION_MAJOR then Outcome([], [WrongVersion])
               else if |h| == HEADER_SIZE && GetU16(h[6], h[7]) > MAX_PAYLOAD then Outcome([], [WrongLength])
               else Outcome(h, [])
  {
  }

  lemma TallyOne(c: Counters)
    ensures TallyAll(c, []) == c
    ensures forall e: Event :: TallyAll(c, [e]) == Tally(c, e)
  {
    forall e: Event ensures TallyAll(c, [e]) == Tally(c, e) {
      assert [e][1..] == [];
    }
  }

  /** Where the parts of a candidate lie. */
  lemma CandidateParts(header: seq<byte>, payload: seq<byte>, crc: seq<byte>, h: seq<byte>)
    requires |header| == 6 && |crc| == 2 && GetU16(header[4], header[5]) == |payload| <= MAX_PAYLOAD
    requires header[0] / 16 == VERSION_MAJOR
    requires h == [SOF0, SOF1] + header + payload + crc
    ensures GoodHeader(h) && |h| == FrameSize(h)
    ensures Complete(h)
         == if Accepts(header + payload, crc)
            then Valid(Frame(header[0], header[1], header[2], header[3], payload)) else WrongCrc
  {
    hide Accepts;
    var len := |payload|;
    assert h[2] == header[0] && h[6] == header[4] && h[7] == header[5];
    assert h[2..HEADER_SIZE + len] == header + payload;
    assert h[HEADER_SIZE + len..] == crc;
    assert h[HEADER_SIZE..HEADER_SIZE + len] == payload;
  }
}
