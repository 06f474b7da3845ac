/** What a user of the parser observes of a feed: frames queued or dropped, and counters. */
module VoxLinkReception {
  import opened Crc16
  import opened CrcTrailer
  import opened VoxLinkCodec
  import opened VoxLinkStream

  const QUEUE_CAPACITY := 8

  /** `ParserCounters`. */
  datatype Counters = Counters(
    bytesFed: nat, framesValid: nat, framesDropped: nat, crcErrors: nat, framingErrors: nat,
    lengthErrors: nat, unsupportedVersion: nat, unknownType: nat, parserResyncs: nat)

  const ZERO_COUNTERS := Counters(0, 0, 0, 0, 0, 0, 0, 0, 0)

  /** `msg_type_known`. */
  predicate KnownType(t: byte) {
    || 0x01 <= t <= 0x12
    || 0x20 <= t <= 0x23
    || t == 0x30
    || t == 0x40
    || 0x60 <= t <= 0x63
  }

  /** The counters after one event. */
  function Tally(c: Counters, e: Event): Counters {
    match e
    case Valid(f) =>
      c.(framesValid := c.framesValid + 1, unknownType := c.unknownType + if KnownType(f.msgType) then 0 else 1)
    case WrongVersion => c.(unsupportedVersion := c.unsupportedVersion + 1, parserResyncs := c.parserResyncs + 1)
    case WrongLength => c.(lengthErrors := c.lengthErrors + 1, parserResyncs := c.parserResyncs + 1)
    case WrongCrc => c.(crcErrors := c.crcErrors + 1, parserResyncs := c.parserResyncs + 1)
  }

  function TallyAll(c: Counters, events: seq<Event>): Counters
    decreases |events|
  {
    if events == [] then c else TallyAll(Tally(c, events[0]), events[1..])
  }

  datatype Emitted = Nothing | Emit(frame: Frame)

  function EmittedBy(events: seq<Event>): Emitted
    requires |events| <= 1
  {
    if |events| == 1 && events[0].Valid? then Emit(events[0].frame) else Nothing
  }

  /** What a parser's user can tell about it. */
  datatype Reception = Reception(held: seq<byte>, queued: seq<Frame>, counters: Counters)

  function Enqueue(s: Reception, f: Frame): Reception {
    if |s.queued| < QUEUE_CAPACITY - 1 then s.(queued := s.queued + [f])
    else s.(counters := s.counters.(framesDropped := s.counters.framesDropped + 1))
  }

  function ReceiveByte(s: Reception, b: byte): (r: Reception)
    requires Partial(s.held)
    ensures Partial(r.held)
  {
    var step := Step(s.held, b);
    var next := Reception(step.held, s.queued, TallyAll(s.counters, step.events));
    match EmittedBy(step.events)
    case Nothing => next
    case Emit(f) => Enqueue(next, f)
  }

  function ReceiveAll(s: Reception, data: seq<byte>): (r: Reception)
    requires Partial(s.held)
    ensures Partial(r.held)
    decreases |data|
  {
    if data == [] then s else ReceiveAll(ReceiveByte(s, data[0]), data[1..])
  }

  /** A whole `feed` into the queue. */
  function FedBy(s: Reception, data: seq<byte>): Reception
    requires Partial(s.held)
  {
    ReceiveAll(s.(counters := s.counters.(bytesFed := s.counters.bytesFed + |data|)), data)
  }

  lemma RunOn(held: seq<byte>, data: seq<byte>, c: Counters)
    requires Partial(held) && data != []
    ensures var step := Step(held, data[0]);
            var rest := Run(step.held, data[1..]);
            && Run(held, data).held == rest.held
            && Frames(Run(held, data).events)
               == (if EmittedBy(step.events).Emit? then [EmittedBy(step.events).frame] else []) + Frames(rest.events)
            && TallyAll(c, Run(held, data).events) == TallyAll(TallyAll(c, step.events), rest.events)
  {
    hide Step, Partial;
    var step := Step(held, data[0]);
    var rest := Run(step.held, data[1..]).events;
    FramesConcat(step.events, rest);
    if step.events == [] {
      assert [] + rest == rest;
    } else {
      assert step.events == [step.events[0]];
      assert ([step.events[0]] + rest)[1..] == rest;
    }
  }

  lemma EndOfRun(held: seq<byte>, c: Counters)
    requires Partial(held)
    ensures Run(held, []) == Outcome(held, []) && Frames([]) == [] && TallyAll(c, []) == c
  {
  }

  /** Two feeds without taking frames out between them are one feed of everything. */
  lemma FeedTwice(s: Reception, a: seq<byte>, b: seq<byte>)
    requires Partial(s.held)
    ensures FedBy(FedBy(s, a), b) == FedBy(s, a + b)
  {
    hide ReceiveByte, Partial;
    var extra := s.(counters := s.counters.(bytesFed := s.counters.bytesFed + |a|));
    BytesLater(extra, a, |b|);
    ReceiveConcat(s.(counters := s.counters.(bytesFed := s.counters.bytesFed + |a + b|)), a, b);
  }

  function MoreBytes(s: Reception, n: nat): Reception {
    s.(counters := s.counters.(bytesFed := s.counters.bytesFed + n))
  }

  lemma {:induction false} BytesLater(s: Reception, data: seq<byte>, n: nat)
    requires Partial(s.held)
    ensures ReceiveAll(MoreBytes(s, n), data) == MoreBytes(ReceiveAll(s, data), n)
    decreases |data|
  {
    hide Partial;
    if data != [] {
      BytesLaterByte(s, data[0], n);
      BytesLater(ReceiveByte(s, data[0]), data[1..], n);
    }
  }

  lemma BytesLaterByte(s: Reception, b: byte, n: nat)
    requires Partial(s.held)
    ensures ReceiveByte(MoreBytes(s, n), b) == MoreBytes(ReceiveByte(s, b), n)
  {
    hide Step, Partial, TallyAll;
    var events, c := Step(s.held, b).events, s.counters;
    Untallied(c, c.bytesFed, c.framesDropped, events);
    Untallied(c, c.bytesFed + n, c.framesDropped, events);
  }

  lemma {:induction false} ReceiveConcat(s: Reception, a: seq<byte>, b: seq<byte>)
    requires Partial(s.held)
    ensures ReceiveAll(s, a + b) == ReceiveAll(ReceiveAll(s, a), b)
    decreases |a|
  {
    hide ReceiveByte, Partial;
    if a == [] {
      assert a + b == b;
    } else {
      assert (a + b)[1..] == a[1..] + b;
      ReceiveConcat(ReceiveByte(s, a[0]), a[1..], b);
    }
  }

  /** How many of n completed frames still find a slot. */
  function Kept(queued: nat, n: nat): (k: nat)
    ensures k <= n
  {
    if queued + n <= QUEUE_CAPACITY - 1 then n
    else if queued <= QUEUE_CAPACITY - 1 then QUEUE_CAPACITY - 1 - queued
    else 0
  }

  /** Frames handed to the queue one after the other, with the final counters otherwise. */
  function Queueing(s: Reception, held: seq<byte>, fs: seq<Frame>, c: Counters): Reception {
    var kept := Kept(|s.queued|, |fs|);
    Reception(held, s.queued + fs[..kept], c.(framesDropped := s.counters.framesDropped + |fs| - kept))
  }

  /** A feed queues the first frames completed while slots last, and counts every later one as dropped. */
  lemma {:induction false} ReceivesRun(s: Reception, data: seq<byte>)
    requires Partial(s.held)
    ensures var r := Run(s.held, data);
            ReceiveAll(s, data) == Queueing(s, r.held, Frames(r.events), TallyAll(s.counters, r.events))
    decreases |data|
  {
    hide Step, Partial, Frames, TallyAll, Run, Queueing;
    if data == [] {
      EndOfRun(s.held, s.counters);
      NothingQueued(s, s.held, s.counters);
    } else {
      var step := Step(s.held, data[0]);
      var rest := Run(step.held, data[1..]);
      var fs, c := Frames(rest.events), TallyAll(s.counters, step.events);
      var c' := TallyAll(c, rest.events);
      var next := Reception(step.held, s.queued, c);
      Untallied(s.counters, s.counters.bytesFed, s.counters.framesDropped, step.events);
      RunOn(s.held, data, s.counters);
      ReceivesRun(ReceiveByte(s, data[0]), data[1..]);
      match EmittedBy(step.events)
      case Nothing =>
        assert [] + fs == fs;
        SameQueueing(s, next, rest.held, fs, c');
      case Emit(f) =>
        FirstQueued(s, next, f, rest.held, fs, rest.events);
    }
  }

  lemma NothingQueued(s: Reception, held: seq<byte>, c: Counters)
    requires c.framesDropped == s.counters.framesDropped
    ensures Queueing(s, held, [], c) == Reception(held, s.queued, c)
  {
    assert s.queued + [] == s.queued;
  }

  lemma SameQueueing(s: Reception, t: Reception, held: seq<byte>, fs: seq<Frame>, c: Counters)
    requires s.queued == t.queued && s.counters.framesDropped == t.counters.framesDropped
    ensures Queueing(s, held, fs, c) == Queueing(t, held, fs, c)
  {
  }

  lemma FirstQueued(s: Reception, next: Reception, f: Frame, held: seq<byte>, fs: seq<Frame>, events: seq<Event>)
    requires next.queued == s.queued && next.counters.framesDropped == s.counters.framesDropped
    ensures var c := next.counters;
            && Queueing(Enqueue(next, f), held, fs, TallyAll(Enqueue(next, f).counters, events))
               == Queueing(s, held, [f] + fs, TallyAll(c, events))
  {
    hide TallyAll;
    var c := next.counters;
    Untallied(c, c.bytesFed, c.framesDropped, events);
    Untallied(c, c.bytesFed, c.framesDropped + 1, events);
    var kept, kept' := Kept(|s.queued|, |fs| + 1), Kept(|Enqueue(next, f).queued|, |fs|);
    if |s.queued| < QUEUE_CAPACITY - 1 {
      assert s.queued + [f] + fs[..kept'] == s.queued + ([f] + fs)[..kept];
    } else {
      assert s.queued + fs[..0] == s.queued + ([f] + fs)[..0];
    }
  }

  /** Events leave the byte count and the dropped count to others. */
  lemma {:induction false} Untallied(c: Counters, bytes: nat, dropped: nat, events: seq<Event>)
    ensures TallyAll(c.(bytesFed := bytes, framesDropped := dropped), events)
         == TallyAll(c, events).(bytesFed := bytes, framesDropped := dropped)
    decreases |events|
  {
    if events != [] {
      Untallied(Tally(c, events[0]), bytes, dropped, events[1..]);
    }
  }

  /** How many of the frames have a message type the protocol does not define. */
  function UnknownAmong(fs: seq<Frame>): nat {
    if fs == [] then 0 else (if KnownType(fs[0].msgType) then 0 else 1) + UnknownAmong(fs[1..])
  }

  /** How the events add up. */
  lemma {:induction false} TallyAddsUp(c: Counters, events: seq<Event>)
    ensures var t := TallyAll(c, events);
            && t.framesValid == c.framesValid + |Frames(events)|
            && t.framingErrors == c.framingErrors
            && t.unknownType == c.unknownType + UnknownAmong(Frames(events))
            && t.parserResyncs - c.parserResyncs
               == (t.crcErrors - c.crcErrors) + (t.unsupportedVersion - c.unsupportedVersion)
                  + (t.lengthErrors - c.lengthErrors)
               == |events| - |Frames(events)|
    decreases |events|
  {
    hide KnownType;
    if events != [] {
      TallyAddsUp(Tally(c, events[0]), events[1..]);
      if events[0].Valid? {
        assert Frames(events)[1..] == Frames(events[1..]);
      } else {
        assert Frames(events) == Frames(events[1..]);
      }
    }
  }

  /** What one feed does to the counters: every valid frame is queued or dropped, those of
      undefined type are counted, every resynchronisation has exactly one of three causes, and
      no framing error is ever counted. */
  lemma FeedBalances(s: Reception, data: seq<byte>)
    requires Partial(s.held)
    ensures var t := FedBy(s, data);
            var c, d := s.counters, t.counters;
            && d.bytesFed == c.bytesFed + |data|
            && s.queued <= t.queued
            && d.framesValid - c.framesValid == (|t.queued| - |s.queued|) + (d.framesDropped - c.framesDropped)
            && d.parserResyncs - c.parserResyncs
               == (d.crcErrors - c.crcErrors) + (d.unsupportedVersion - c.unsupportedVersion)
                  + (d.lengthErrors - c.lengthErrors)
            && d.framingErrors == c.framingErrors
            && d.unknownType == c.unknownType + UnknownAmong(Frames(Run(s.held, data).events))
  {
    hide Step, Partial, Frames, TallyAll, Run, ReceiveAll, UnknownAmong;
    var extra := s.(counters := s.counters.(bytesFed := s.counters.bytesFed + |data|));
    var events := Run(s.held, data).events;
    ReceivesRun(extra, data);
    TallyAddsUp(extra.counters, events);
    Untallied(extra.counters, extra.counters.bytesFed, extra.counters.framesDropped, events);
  }

  /** Frames are lost to the queue exactly when one feed completes more than it has free slots. */
  lemma DropsIffOverfull(s: Reception, data: seq<byte>)
    requires Partial(s.held) && |s.queued| < QUEUE_CAPACITY
    ensures FedBy(s, data).counters.framesDropped > s.counters.framesDropped
        <==> |s.queued| + |Frames(Run(s.held, data).events)| > QUEUE_CAPACITY - 1
  {
    hide Step, Partial, Frames, TallyAll, Run, ReceiveAll;
    ReceivesRun(s.(counters := s.counters.(bytesFed := s.counters.bytesFed + |data|)), data);
  }

  /** From any point, n bytes complete at most (n + 9) / 10 frames. */
  lemma {:induction false} FramesPerBytes(held: seq<byte>, data: seq<byte>)
    requires Partial(held)
    ensures 10 * |Frames(Run(held, data).events)| <= |data| + if held == [] then 0 else 9
    decreases |data|
  {
    hide Partial, Step;
    if held == [] {
      DeliveryTakesBytes(held, data);
    } else if data != [] {
      RunOn(held, data, ZERO_COUNTERS);
      var step := Step(held, data[0]);
      FramesPerBytes(step.held, data[1..]);
      FrameEndsCandidate(held, data[0]);
    } else {
      EndOfRun(held, ZERO_COUNTERS);
    }
  }

  lemma FrameEndsCandidate(held: seq<byte>, b: byte)
    requires Partial(held)
    ensures Step(held, b).events != [] ==> Step(held, b).held == []
  {
  }

  /** An empty queue survives any chunk of up to 70 bytes, */
  lemma SeventyBytesFit(s: Reception, data: seq<byte>)
    requires Partial(s.held) && s.queued == [] && |data| <= 70
    ensures FedBy(s, data).counters.framesDropped == s.counters.framesDropped
  {
    hide Step, Partial, Frames, TallyAll, Run, ReceiveAll;
    FramesPerBytes(s.held, data);
    ReceivesRun(s.(counters := s.counters.(bytesFed := s.counters.bytesFed + |data|)), data);
  }

  /** and of frames that arrive in one chunk only the first seven survive. */
  lemma BurstKeepsSeven(fs: seq<Frame>, c: Counters)
    requires AllWellFormed(fs) && |fs| >= QUEUE_CAPACITY
    ensures var t := FedBy(Reception([], [], c), Stream(fs));
            t.queued == fs[..7] && t.counters.framesDropped == c.framesDropped + |fs| - 7
  {
    hide Step, Frames, TallyAll, Run, ReceiveAll, Stream;
    var data := Stream(fs);
    ReceivesFromBoundary([], fs);
    ReceivesRun(Reception([], [], c.(bytesFed := c.bytesFed + |data|)), data);
  }

  function Ping(): (f: Frame)
    ensures WellFormed(f) && |FrameBytes(f)| == 10
  {
    Frame(VERSION, 0x60, 0, 0, [])
  }

  function Pings(n: nat): (fs: seq<Frame>)
    ensures AllWellFormed(fs) && |fs| == n
  {
    seq(n, _ => Ping())
  }

  lemma {:induction false} PingBytes(n: nat)
    ensures |Stream(Pings(n))| == 10 * n
    decreases n
  {
    hide FrameBytes, Ping;
    if n > 0 {
      assert Pings(n)[1..] == Pings(n - 1);
      assert Pings(n)[0] == Ping();
      PingBytes(n - 1);
    }
  }

  /** A 71st byte can lose a frame: eight frames can end within 71 bytes. */
  lemma SeventyOneMayDrop(c: Counters)
    ensures exists held, data ::
              && Partial(held) && |data| == 71
              && FedBy(Reception(held, [], c), data).counters.framesDropped == c.framesDropped + 1
  {
    hide Step, Partial, Frames, TallyAll, Run, ReceiveAll, Stream, FrameBytes;
    var stream := Stream(Pings(8));
    PingBytes(8);
    var held, data := stream[..9], stream[9..];
    PingBegins(8);
    assert [] + held == held && stream == held + data;
    Collect([], held);
    RunConcat([], held, data);
    ReceivesFromBoundary([], Pings(8));
    assert [] + Run(held, data).events == Run(held, data).events;
    ReceivesRun(Reception(held, [], c.(bytesFed := c.bytesFed + 71)), data);
    assert FedBy(Reception(held, [], c), data).counters.framesDropped == c.framesDropped + 1;
  }

  lemma PingBegins(n: nat)
    requires n > 0
    ensures |Stream(Pings(n))| >= 9 && Partial(Stream(Pings(n))[..9]) && Partial([])
  {
    hide Trailer, Checksum;
    assert Stream(Pings(n))[..9] == FrameBytes(Ping())[..9];
    assert FrameBytes(Ping())[6] == 0 && FrameBytes(Ping())[7] == 0;
  }
}
