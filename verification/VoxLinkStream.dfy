/** VoxLink v1 reception as a function of the bytes received: what the streaming
    parser holds between bytes, what it reports, and how that relates to
    decoding the same bytes in one piece. */
module VoxLinkStream {
  import opened Crc16
  import opened CrcTrailer
  import opened VoxLinkCodec

  /** What one byte can make the parser report. */
  datatype Event = Valid(frame: Frame) | WrongVersion | WrongLength | WrongCrc

  datatype Outcome = Outcome(held: seq<byte>, events: seq<Event>)

  predicate StartsFrame(h: seq<byte>) {
    |h| >= 2 && h[0] == SOF0 && h[1] == SOF1
  }

  /** A complete, supported header. */
  predicate GoodHeader(h: seq<byte>) {
    && StartsFrame(h) && |h| >= HEADER_SIZE
    && h[2] / 16 == VERSION_MAJOR
    && GetU16(h[6], h[7]) <= MAX_PAYLOAD
  }

  function FrameSize(h: seq<byte>): nat
    requires |h| >= HEADER_SIZE
  {
    HEADER_SIZE + GetU16(h[6], h[7]) + CRC_SIZE
  }

  /** The beginnings of frames a parser can be waiting to complete. */
  predicate Partial(h: seq<byte>) {
    || h == []
    || h == [SOF0]
    || (StartsFrame(h) && |h| < HEADER_SIZE)
    || (GoodHeader(h) && |h| < FrameSize(h))
  }

  /** A completed candidate: its frame, or a CRC error. */
  function Complete(h: seq<byte>): Event
    requires GoodHeader(h) && |h| == FrameSize(h)
  {
    var len := GetU16(h[6], h[7]);
    if Accepts(h[2..HEADER_SIZE + len], h[HEADER_SIZE + len..])
    then Valid(Frame(h[2], h[3], h[4], h[5], h[HEADER_SIZE..HEADER_SIZE + len]))
    else WrongCrc
  }

  /** One received byte. */
  function Step(held: seq<byte>, b: byte): (r: Outcome)
    requires Partial(held)
    ensures Partial(r.held) && |r.events| <= 1
  {
    var h := held + [b];
    if |h| == 1 then Outcome(if b == SOF0 then h else [], [])
    else if |h| == 2 then Outcome(if b == SOF1 then h else if b == SOF0 then [SOF0] else [], [])
    else if |h| < HEADER_SIZE then Outcome(h, [])
    else if |h| == HEADER_SIZE && h[2] / 16 != VERSION_MAJOR then Outcome([], [WrongVersion])
    else if |h| == HEADER_SIZE && GetU16(h[6], h[7]) > MAX_PAYLOAD then Outcome([], [WrongLength])
    else if |h| < FrameSize(h) then Outcome(h, [])
    else Outcome([], [Complete(h)])
  }

  /** A run of received bytes. */
  function Run(held: seq<byte>, data: seq<byte>): (r: Outcome)
    requires Partial(held)
    ensures Partial(r.held)
    decreases |data|
  {
    if data == [] then Outcome(held, [])
    else
      var first := Step(held, data[0]);
      var rest := Run(first.held, data[1..]);
      Outcome(rest.held, first.events + rest.events)
  }

  /** The frames among the events, in order. */
  function Frames(events: seq<Event>): seq<Frame> {
    if events == [] then []
    else (if events[0].Valid? then [events[0].frame] else []) + Frames(events[1..])
  }

  lemma {:induction false} FramesConcat(a: seq<Event>, b: seq<Event>)
    ensures Frames(a + b) == Frames(a) + Frames(b)
    decreases |a|
  {
    if a == [] {
      assert a + b == b;
    } else {
      assert (a + b)[1..] == a[1..] + b && (a + b)[0] == a[0];
      FramesConcat(a[1..], b);
      var first := if a[0].Valid? then [a[0].frame] else [];
      assert first + (Frames(a[1..]) + Frames(b)) == first + Frames(a[1..]) + Frames(b);
    }
  }

  /** Cutting the input into chunks anywhere changes nothing. */
  lemma {:induction false} RunConcat(held: seq<byte>, a: seq<byte>, b: seq<byte>)
    requires Partial(held)
    ensures var r := Run(held, a);
            var s := Run(r.held, b);
            Run(held, a + b) == Outcome(s.held, r.events + s.events)
    decreases |a|
  {
    hide Step, Partial;
    if a == [] {
      assert a + b == b;
    } else {
      assert (a + b)[1..] == a[1..] + b;
      var first := Step(held, a[0]);
      RunConcat(first.held, a[1..], b);
      var rest := Run(first.held, a[1..]);
      EventsAssociative(first.events, rest.events, Run(rest.held, b).events);
    }
  }

  lemma EventsAssociative(a: seq<Event>, b: seq<Event>, c: seq<Event>)
    ensures a + b + c == a + (b + c)
  {
  }

  lemma PartialPrefix(h: seq<byte>, n: nat)
    requires Partial(h) && n <= |h|
    ensures Partial(h[..n])
  {
  }

  lemma StepHolds(h: seq<byte>, b: byte)
    requires Partial(h) && Partial(h + [b])
    ensures Step(h, b) == Outcome(h + [b], [])
  {
    var g := h + [b];
    assert g[|h|] == b;
    assert |g| == 1 ==> g == [b];
  }

  /** As long as the bytes stay the beginning of a frame they are only collected. */
  lemma {:induction false} Collect(h: seq<byte>, d: seq<byte>)
    requires Partial(h) && Partial(h + d)
    ensures Run(h, d) == Outcome(h + d, [])
    decreases |d|
  {
    hide Step, Partial;
    if d == [] {
      assert h + d == h;
    } else {
      assert (h + d)[..|h| + 1] == h + [d[0]];
      PartialPrefix(h + d, |h| + 1);
      StepHolds(h, d[0]);
      assert h + [d[0]] + d[1..] == h + d;
      Collect(h + [d[0]], d[1..]);
    }
  }

  /** From the hunting state, bytes collected up to a last one that ends the candidate. */
  lemma Candidate(data: seq<byte>, n: nat)
    requires 0 < n <= |data| && Partial(data[..n - 1])
    requires Step(data[..n - 1], data[n - 1]).held == []
    ensures var rest := Run([], data[n..]);
            Run([], data) == Outcome(rest.held, Step(data[..n - 1], data[n - 1]).events + rest.events)
  {
    hide Step, Partial;
    var front, last := data[..n - 1], data[n - 1..];
    assert data == front + last;
    PartialPrefix(front, 0);
    RunConcat([], front, last);
    assert [] + front == front;
    Collect([], front);
    assert last[0] == data[n - 1] && last[1..] == data[n..];
    var rest := Run([], data[n..]);
    assert [] + (Step(front, data[n - 1]).events + rest.events) == Step(front, data[n - 1]).events + rest.events;
  }

  // ---------------------------------------------------------------------
  // Streaming agrees with decoding in one piece
  // ---------------------------------------------------------------------

  /** How far a receiver that looks at all the data moves on when the front of it
      is not a frame: past a false mark by one byte, past a rejected header by the
      header, past a damaged frame by its declared size. */
  function Skip(data: seq<byte>): (n: nat)
    requires Decode(data).Rejected? && Decode(data).status != ShortBuffer
    ensures 0 < n <= |data|
  {
    match Decode(data).status
    case BadSof => 1
    case UnsupportedVersion => HEADER_SIZE
    case LengthTooLarge => HEADER_SIZE
    case BadCrc => FrameSize(data)
  }

  /** The frames found by `decode_frame` and that skip rule. */
  function Scan(data: seq<byte>): seq<Frame>
    decreases |data|
  {
    match Decode(data)
    case Decoded(f, n) => FrameBytesDecode(data); [f] + Scan(data[n..])
    case Rejected(status) => if status == ShortBuffer then [] else Scan(data[Skip(data)..])
  }

  /** The last byte of a candidate completes it. */
  lemma StepCompletes(h: seq<byte>)
    requires GoodHeader(h) && |h| == FrameSize(h)
    ensures var n := |h| - 1;
            Partial(h[..n]) && Step(h[..n], h[n]) == Outcome([], [Complete(h)])
  {
    hide Complete;
    var n := |h| - 1;
    assert h[..n] + [h[n]] == h;
  }

  /** A whole candidate at the front of the data. */
  lemma RunCandidate(data: seq<byte>, n: nat)
    requires 0 < n <= |data| && GoodHeader(data[..n]) && n == FrameSize(data[..n])
    ensures var rest := Run([], data[n..]);
            Run([], data) == Outcome(rest.held, [Complete(data[..n])] + rest.events)
  {
    hide Complete, GoodHeader, Partial, Step, Run;
    var h := data[..n];
    StepCompletes(h);
    assert h[..n - 1] == data[..n - 1] && h[n - 1] == data[n - 1];
    Candidate(data, n);
  }

  lemma Slice(data: seq<byte>, n: nat, lo: nat, hi: nat)
    requires lo <= hi <= n <= |data|
    ensures data[..n][lo..hi] == data[lo..hi]
    ensures hi == n ==> data[..n][lo..] == data[lo..hi]
  {
  }

  /** A decodable front is reported as that frame. */
  lemma RunDecoded(data: seq<byte>)
    requires Decode(data).Decoded?
    ensures var r := Decode(data);
            r.consumed <= |data|
            && Run([], data).events == [Valid(r.frame)] + Run([], data[r.consumed..]).events
  {
    hide Accepts, Run, Step, Partial;
    var n := Decode(data).consumed;
    var h := data[..n];
    Slice(data, n, 2, n - 2);
    Slice(data, n, n - 2, n);
    Slice(data, n, HEADER_SIZE, n - 2);
    RunCandidate(data, n);
  }

  lemma RunBadCrc(data: seq<byte>)
    requires Decode(data) == Rejected(BadCrc)
    ensures var rest := Run([], data[Skip(data)..]);
            Run([], data) == Outcome(rest.held, [WrongCrc] + rest.events)
  {
    hide Accepts, Run, Step, Partial;
    var n := FrameSize(data);
    var h := data[..n];
    Slice(data, n, 2, n - 2);
    Slice(data, n, n - 2, n);
    RunCandidate(data, n);
  }

  lemma RunBadHeader(data: seq<byte>)
    requires Decode(data) == Rejected(UnsupportedVersion) || Decode(data) == Rejected(LengthTooLarge)
    ensures Run([], data).events
         == [if Decode(data).status == UnsupportedVersion then WrongVersion else WrongLength]
            + Run([], data[Skip(data)..]).events
  {
    hide Accepts, Run;
    assert data[..7] + [data[7]] == data[..8];
    Candidate(data, HEADER_SIZE);
  }

  lemma QuietStep(held: seq<byte>, data: seq<byte>, next: seq<byte>)
    requires Partial(held) && Partial(next) && data != []
    requires Step(held, data[0]) == Outcome(next, [])
    ensures Run(held, data) == Run(next, data[1..])
  {
    hide Step, Partial;
    NothingFirst(Run(next, data[1..]).events);
  }

  lemma NothingFirst(events: seq<Event>)
    ensures [] + events == events
  {
  }

  /** The byte after a lone start mark is examined afresh unless it completes the mark. */
  lemma FalseMark(b: byte)
    requires b != SOF1
    ensures Step([SOF0], b) == Step([], b)
    ensures Step([], b).events == []
  {
    assert [SOF0] + [b] == [SOF0, b] && [] + [b] == [b];
  }

  lemma HuntingStep(b: byte)
    ensures Step([], b) == Outcome(if b == SOF0 then [SOF0] else [], [])
  {
    assert [] + [b] == [b];
  }

  lemma RunBadSof(data: seq<byte>)
    requires Decode(data) == Rejected(BadSof)
    ensures Run([], data) == Run([], data[1..])
  {
    hide Accepts, Run, Step;
    HuntingStep(data[0]);
    QuietStep([], data, if data[0] == SOF0 then [SOF0] else []);
    if data[0] == SOF0 {
      FalseMark(data[1]);
      var next := Step([], data[1]).held;
      QuietStep([SOF0], data[1..], next);
      QuietStep([], data[1..], next);
    }
  }

  /** Each delivered frame takes at least ten bytes: a frame cannot be conjured
      from less than its header and trailer. */
  lemma {:induction false} DeliveryTakesBytes(held: seq<byte>, data: seq<byte>)
    requires Partial(held)
    ensures (HEADER_SIZE + CRC_SIZE) * |Frames(Run(held, data).events)| + |Run(held, data).held|
         <= |held| + |data|
    decreases |data|
  {
    hide Partial;
    if data != [] {
      var first := Step(held, data[0]);
      var rest := Run(first.held, data[1..]);
      StepSize(held, data[0]);
      DeliveryTakesBytes(first.held, data[1..]);
      FramesConcat(first.events, rest.events);
    }
  }

  lemma StepSize(held: seq<byte>, b: byte)
    requires Partial(held)
    ensures var r := Step(held, b);
            (HEADER_SIZE + CRC_SIZE) * |Frames(r.events)| + |r.held| <= |held| + 1
  {
    var r := Step(held, b);
    assert r.events == [] || r.events == [r.events[0]];
  }

  /** Data that decode_frame calls short deliver nothing. */
  lemma ShortDeliversNothing(data: seq<byte>)
    requires Decode(data) == Rejected(ShortBuffer)
    ensures Frames(Run([], data).events) == []
  {
    hide Accepts, Run;
    if |data| < HEADER_SIZE + CRC_SIZE {
      DeliveryTakesBytes([], data);
    } else {
      assert [] + data == data;
      Collect([], data);
    }
  }

  /** Streaming reception, byte by byte, delivers exactly the frames that decoding the
      whole data with the skip rule finds: for every byte string whatever. */
  lemma {:induction false} StreamingIsScanning(data: seq<byte>)
    ensures Frames(Run([], data).events) == Scan(data)
    decreases |data|
  {
    hide Decode, Run, Step;
    match Decode(data)
    case Decoded(f, n) =>
      FrameBytesDecode(data);
      RunDecoded(data);
      StreamingIsScanning(data[n..]);
      assert Frames([Valid(f)]) == [f];
      FramesConcat([Valid(f)], Run([], data[n..]).events);
    case Rejected(status) =>
      if status == ShortBuffer {
        ShortDeliversNothing(data);
      } else {
        StreamingIsScanning(data[Skip(data)..]);
        SkippedDeliversNothing(data);
      }
  }

  lemma SkippedDeliversNothing(data: seq<byte>)
    requires Decode(data).Rejected? && Decode(data).status != ShortBuffer
    ensures Frames(Run([], data).events) == Frames(Run([], data[Skip(data)..]).events)
  {
    hide Decode, Run, Step, Frames;
    var rest := Run([], data[Skip(data)..]).events;
    match Decode(data).status
    case BadSof => RunBadSof(data);
    case BadCrc => RunBadCrc(data); RejectionIsNoFrame(WrongCrc, rest);
    case UnsupportedVersion => RunBadHeader(data); RejectionIsNoFrame(WrongVersion, rest);
    case LengthTooLarge => RunBadHeader(data); RejectionIsNoFrame(WrongLength, rest);
  }

  lemma RejectionIsNoFrame(e: Event, rest: seq<Event>)
    requires !e.Valid?
    ensures Frames([e] + rest) == Frames(rest)
  {
    assert ([e] + rest)[1..] == rest;
  }

  // ---------------------------------------------------------------------
  // Joining a stream, and finding the frame boundaries again
  // ---------------------------------------------------------------------

  /** Everything sent after this point is received. */
  ghost predicate ReceivesAll(held: seq<byte>)
    requires Partial(held)
  {
    forall fs: seq<Frame> :: AllWellFormed(fs) ==> Frames(Run(held, Stream(fs)).events) == fs
  }

  lemma {:induction false} ScanStream(fs: seq<Frame>)
    requires AllWellFormed(fs)
    ensures Scan(Stream(fs)) == fs
    decreases |fs|
  {
    hide Decode, FrameBytes;
    if fs == [] {
      EmptyIsShort();
    } else {
      var first, rest := FrameBytes(fs[0]), Stream(fs[1..]);
      DecodeFrameBytes(fs[0], rest);
      assert (first + rest)[|first|..] == rest;
      ScanStream(fs[1..]);
      assert fs == [fs[0]] + fs[1..];
    }
  }

  /** A start mark seen while a start mark is pending is the pending one. */
  lemma RepeatedMark(data: seq<byte>)
    requires data != [] && data[0] == SOF0
    ensures Run([SOF0], data) == Run([], data)
  {
    hide Run, Step;
    FalseMark(SOF0);
    HuntingStep(SOF0);
    QuietStep([SOF0], data, [SOF0]);
    QuietStep([], data, [SOF0]);
  }

  lemma StreamBegins(fs: seq<Frame>)
    requires AllWellFormed(fs) && fs != []
    ensures Stream(fs) != [] && Stream(fs)[0] == SOF0
  {
    assert FrameBytes(fs[0])[0] == SOF0;
  }

  lemma NothingSent(held: seq<byte>)
    requires Partial(held)
    ensures Frames(Run(held, Stream([])).events) == []
  {
  }

  lemma ReceivesFromBoundary(held: seq<byte>, fs: seq<Frame>)
    requires Partial(held) && |held| <= 1 && AllWellFormed(fs)
    ensures Frames(Run(held, Stream(fs)).events) == fs
  {
    hide Stream, Frames, Scan;
    if fs == [] {
      NothingSent(held);
    } else {
      StreamBegins(fs);
      assert held == [] || held == [SOF0];
      if held == [SOF0] {
        RepeatedMark(Stream(fs));
      }
      StreamingIsScanning(Stream(fs));
      ScanStream(fs);
    }
  }

  /** Within the next ten bytes a receiver well inside a candidate can only deliver
      what completes that candidate, and nothing after it. */
  lemma {:induction false} NextIsHeld(held: seq<byte>, data: seq<byte>)
    requires Partial(held) && |held| >= 2 && |data| <= HEADER_SIZE + CRC_SIZE
    ensures var fs := Frames(Run(held, data).events);
            fs == [] || (|fs| == 1 && WellFormed(fs[0]) && FrameBytes(fs[0]) <= held + data)
    decreases |data|
  {
    hide Accepts, FrameBytes, Partial, GoodHeader;
    if data != [] {
      var first := Step(held, data[0]);
      var rest := Run(first.held, data[1..]);
      FramesConcat(first.events, rest.events);
      var h := held + [data[0]];
      assert h + data[1..] == held + data;
      StepEndsOrKeeps(held, data[0]);
      StepSize(held, data[0]);
      if first.held == [] {
        DeliveryTakesBytes([], data[1..]);
      } else {
        NextIsHeld(h, data[1..]);
      }
    }
  }

  lemma StepEndsOrKeeps(held: seq<byte>, b: byte)
    requires Partial(held) && |held| >= 2
    ensures var r := Step(held, b);
            && (r.held == [] || r == Outcome(held + [b], []))
            && forall f :: f in Frames(r.events) ==> WellFormed(f) && FrameBytes(f) == held + [b]
  {
    hide Accepts, FrameBytes;
    var h, r := held + [b], Step(held, b);
    if |r.events| == 1 && r.events[0].Valid? {
      CompleteIsFrame(h);
    }
  }

  lemma CompleteIsFrame(h: seq<byte>)
    requires GoodHeader(h) && |h| == FrameSize(h) && Complete(h).Valid?
    ensures WellFormed(Complete(h).frame) && FrameBytes(Complete(h).frame) == h
  {
    hide Accepts, FrameBytes;
    assert h[HEADER_SIZE + GetU16(h[6], h[7])..] == h[HEADER_SIZE + GetU16(h[6], h[7])..|h|];
    assert Decode(h) == Decoded(Complete(h).frame, |h|);
    FrameBytesDecode(h);
    assert h[..|h|] == h;
  }

  /** A frame whose message type the held bytes do not have. */
  function Misfit(held: seq<byte>): (f: Frame)
    ensures WellFormed(f)
  {
    Frame(VERSION, if |held| > 3 && held[3] == 0 then 1 else 0, 0, 0, [])
  }

  lemma MissesOne(held: seq<byte>, f: Frame)
    requires Partial(held) && |held| >= 2 && WellFormed(f) && f.payload == []
    requires f.msgType != SOF0 && (|held| > 3 ==> held[3] != f.msgType)
    ensures f !in Frames(Run(held, FrameBytes(f)).events)
  {
    hide *;
    var wire := FrameBytes(f);
    FrontOfFrame(f);
    NextIsHeld(held, wire);
    var k := if |held| == 2 then 2 else 3;
    assert wire[k] != (held + wire)[k];
  }

  lemma FrontOfFrame(f: Frame)
    requires WellFormed(f) && f.payload == []
    ensures var wire := FrameBytes(f);
            |wire| == 10 && wire[0] == SOF0 && wire[2] != SOF0 && wire[3] == f.msgType
  {
    hide Trailer, Checksum;
  }

  /** Some frame is lost if it is sent next. */
  ghost predicate CanMiss(held: seq<byte>)
    requires Partial(held)
  {
    exists f :: WellFormed(f) && f !in Frames(Run(held, FrameBytes(f)).events)
  }

  /** Exactly the receivers at a frame boundary, or just past a lone start mark,
      are certain to receive what is sent from then on; every other can lose the next frame. */
  lemma ReceivesAllIffAtBoundary(held: seq<byte>)
    requires Partial(held)
    ensures ReceivesAll(held) <==> |held| <= 1
    ensures CanMiss(held) <==> |held| >= 2
  {
    hide Partial, Run, Frames, FrameBytes, Stream;
    if |held| <= 1 {
      forall fs: seq<Frame> | AllWellFormed(fs)
        ensures Frames(Run(held, Stream(fs)).events) == fs
      {
        ReceivesFromBoundary(held, fs);
      }
      forall f | WellFormed(f) ensures f in Frames(Run(held, FrameBytes(f)).events) {
        ReceivesFromBoundary(held, [f]);
        StreamOfOne(f);
      }
    } else {
      var f := Misfit(held);
      MissesOne(held, f);
      StreamOfOne(f);
      assert AllWellFormed([f]);
    }
  }

  lemma StreamOfOne(f: Frame)
    requires WellFormed(f)
    ensures Stream([f]) == FrameBytes(f)
  {
    hide FrameBytes;
    assert Stream([f]) == FrameBytes(f) + [] == FrameBytes(f);
  }

  const MAX_FRAME := HEADER_SIZE + MAX_PAYLOAD + CRC_SIZE

  /** Without start marks a receiver can only go on filling its candidate or drop it. */
  lemma {:induction false} WithoutMarks(held: seq<byte>, data: seq<byte>)
    requires Partial(held) && SOF0 !in data
    ensures var h := Run(held, data).held;
            h == [] || (held != [] && |h| == |held| + |data|)
    decreases |data|
  {
    hide Partial;
    if data != [] {
      StepWithoutMark(held, data[0]);
      WithoutMarks(Step(held, data[0]).held, data[1..]);
    }
  }

  lemma StepWithoutMark(held: seq<byte>, b: byte)
    requires Partial(held) && b != SOF0
    ensures var h := Step(held, b).held;
            h == [] || (held != [] && |h| == |held| + 1)
  {
  }

  /** After 521 bytes free of start marks every receiver is hunting again, so it
      receives all that follows; */
  lemma GapRecovers(held: seq<byte>, gap: seq<byte>, fs: seq<Frame>)
    requires Partial(held) && SOF0 !in gap && |gap| >= MAX_FRAME - 1 && AllWellFormed(fs)
    ensures Run(held, gap).held == []
    ensures Frames(Run(held, gap + Stream(fs)).events) == Frames(Run(held, gap).events) + fs
  {
    hide Run, Frames, Stream;
    WithoutMarks(held, gap);
    RunConcat(held, gap, Stream(fs));
    FramesConcat(Run(held, gap).events, Run([], Stream(fs)).events);
    ReceivesFromBoundary([], fs);
  }

  function ShortGap(): (gap: seq<byte>)
    ensures SOF0 !in gap && |gap| == MAX_FRAME - 2
  {
    [SOF1, VERSION, 0, 0, 0, 0, 2] + seq(MAX_PAYLOAD + 1, _ => 0)
  }

  /** and 520 are not enough: there is a receiver still inside a candidate after them. */
  lemma ShorterGapMayNotRecover()
    ensures exists held: seq<byte> :: Partial(held) && Run(held, ShortGap()).held != []
  {
    hide Run;
    var whole := [SOF0] + ShortGap();
    assert GoodHeader(whole);
    Collect([SOF0], ShortGap());
    assert Partial([SOF0]) && Run([SOF0], ShortGap()).held != [];
  }
}
