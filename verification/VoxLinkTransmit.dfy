/** The session's transmit path as a function of the requests made of it, and what
    the receiver at the other end makes of the bytes taken from it. */
module VoxLinkTransmit {
  import opened Crc16
  import opened VoxLinkCodec
  import opened VoxLinkStream

  const TX_CAPACITY := 8192

  /** The default of `telemetry_high_water`: three quarters of the ring. */
  const DEFAULT_HIGH_WATER := TX_CAPACITY / 4 * 3

  datatype TxCounters = TxCounters(framesTx: nat, telemetryDropped: nat, responseDropped: nat, txBytesDropped: nat)

  const ZERO_TX := TxCounters(0, 0, 0, 0)

  datatype Tx = Tx(pending: seq<byte>, counters: TxCounters)

  /** What `enqueue` is asked to send. */
  datatype Message = Message(msgType: byte, flags: byte, seqNo: byte, payload: seq<byte>, critical: bool)

  function FrameOf(m: Message): Frame {
    Frame(VERSION, m.msgType, m.flags, m.seqNo, m.payload)
  }

  predicate Sendable(m: Message) {
    |m.payload| <= MAX_PAYLOAD
  }

  lemma SendableIsWellFormed(m: Message)
    requires Sendable(m)
    ensures WellFormed(FrameOf(m))
    ensures |FrameBytes(FrameOf(m))| == HEADER_SIZE + |m.payload| + CRC_SIZE
  {
  }

  /** The level up to which a message may fill the ring. */
  function Limit(m: Message, highWater: nat): nat {
    if m.critical then TX_CAPACITY - 1 else highWater
  }

  predicate Accepted(tx: Tx, m: Message, highWater: nat) {
    Sendable(m) && |tx.pending| + |FrameBytes(FrameOf(m))| <= Limit(m, highWater)
  }

  /** What the ring holds once n bytes have been written into it one after the other:
      when the write index catches up with the read index the ring looks empty. */
  function Written(pending: seq<byte>, bytes: seq<byte>): seq<byte>
    requires |pending| < TX_CAPACITY && |bytes| < TX_CAPACITY
  {
    if |pending| + |bytes| < TX_CAPACITY then pending + bytes
    else bytes[TX_CAPACITY - |pending|..]
  }

  /** `enqueue`. */
  function Send(tx: Tx, m: Message, highWater: nat): (r: Tx)
    requires |tx.pending| < TX_CAPACITY
    ensures |r.pending| < TX_CAPACITY
  {
    var c := tx.counters;
    if !Sendable(m) then tx
    else if Accepted(tx, m, highWater) then
      Tx(Written(tx.pending, FrameBytes(FrameOf(m))), c.(framesTx := c.framesTx + 1))
    else if m.critical then
      tx.(counters := c.(responseDropped := c.responseDropped + 1, txBytesDropped := c.txBytesDropped + 1))
    else
      tx.(counters := c.(telemetryDropped := c.telemetryDropped + 1, txBytesDropped := c.txBytesDropped + 1))
  }

  /** Both limits: a message is refused, counted by its kind and leaves no bytes exactly when it would
      fill the ring past 8191 bytes, or as telemetry past the high water mark. */
  lemma RefusedIff(tx: Tx, m: Message, highWater: nat)
    requires |tx.pending| < TX_CAPACITY && Sendable(m)
    ensures var c, r := tx.counters, Send(tx, m, highWater);
            var refused := |tx.pending| + 10 + |m.payload| > if m.critical then 8191 else highWater;
            && r.counters.framesTx == c.framesTx + (if refused then 0 else 1)
            && r.counters.responseDropped == c.responseDropped + (if m.critical && refused then 1 else 0)
            && r.counters.telemetryDropped == c.telemetryDropped + (if !m.critical && refused then 1 else 0)
            && (refused ==> r.pending == tx.pending)
            && (!refused && highWater <= 8191 ==>
                  r.pending == tx.pending + FrameBytes(Frame(0x10, m.msgType, m.flags, m.seqNo, m.payload)))
  {
    hide FrameBytes;
    SendableIsWellFormed(m);
  }

  function Min(a: nat, b: nat): nat {
    if a < b then a else b
  }

  // ---------------------------------------------------------------------
  // Whole runs
  // ---------------------------------------------------------------------

  datatype Request = Enqueue(message: Message) | TakeTx(max: nat)

  /** A run so far: the ring, the messages it accepted and the bytes taken out of it. */
  datatype History = History(tx: Tx, accepted: seq<Message>, taken: seq<byte>)

  function FramesOf(ms: seq<Message>): seq<Frame> {
    seq(|ms|, i requires 0 <= i < |ms| => FrameOf(ms[i]))
  }

  lemma FramesOfOneMore(ms: seq<Message>, m: Message)
    ensures FramesOf(ms + [m]) == FramesOf(ms) + [FrameOf(m)]
  {
  }

  const START := History(Tx([], ZERO_TX), [], [])

  ghost predicate Fits(h: History) {
    |h.tx.pending| < TX_CAPACITY
  }

  function Serve(h: History, r: Request, highWater: nat): (h': History)
    requires Fits(h)
    ensures Fits(h')
  {
    match r
    case Enqueue(m) =>
      History(Send(h.tx, m, highWater),
              if Accepted(h.tx, m, highWater) then h.accepted + [m] else h.accepted, h.taken)
    case TakeTx(max) =>
      var n := Min(|h.tx.pending|, max);
      History(h.tx.(pending := h.tx.pending[n..]), h.accepted, h.taken + h.tx.pending[..n])
  }

  function ServeAll(h: History, rs: seq<Request>, highWater: nat): (h': History)
    requires Fits(h)
    ensures Fits(h')
    decreases |rs|
  {
    if rs == [] then h else ServeAll(Serve(h, rs[0], highWater), rs[1..], highWater)
  }

  /** Nothing accepted is lost, reordered or torn: what was taken and what is still
      pending are together the accepted frames back to back. */
  ghost predicate Lossless(h: History) {
    var sent := FramesOf(h.accepted);
    AllWellFormed(sent) && h.taken + h.tx.pending == Stream(sent)
  }

  lemma {:induction false} StreamAppend(fs: seq<Frame>, f: Frame)
    requires AllWellFormed(fs) && WellFormed(f)
    ensures Stream(fs + [f]) == Stream(fs) + FrameBytes(f)
    decreases |fs|
  {
    hide FrameBytes;
    if fs == [] {
      assert fs + [f] == [f];
      assert Stream([f]) == FrameBytes(f) + [];
    } else {
      assert (fs + [f])[1..] == fs[1..] + [f];
      StreamAppend(fs[1..], f);
      assert FrameBytes(fs[0]) + (Stream(fs[1..]) + FrameBytes(f))
          == FrameBytes(fs[0]) + Stream(fs[1..]) + FrameBytes(f);
    }
  }

  lemma StartLossless()
    ensures Lossless(START)
  {
  }

  lemma ServeKeepsLossless(h: History, r: Request, highWater: nat)
    requires Fits(h) && Lossless(h) && highWater < TX_CAPACITY
    ensures Lossless(Serve(h, r, highWater))
  {
    hide FrameBytes, Stream;
    match r
    case Enqueue(m) =>
      if Accepted(h.tx, m, highWater) {
        var bytes := FrameBytes(FrameOf(m));
        SendableIsWellFormed(m);
        FramesOfOneMore(h.accepted, m);
        StreamAppend(FramesOf(h.accepted), FrameOf(m));
        assert h.taken + (h.tx.pending + bytes) == h.taken + h.tx.pending + bytes;
      }
    case TakeTx(max) =>
      var n := Min(|h.tx.pending|, max);
      assert h.tx.pending == h.tx.pending[..n] + h.tx.pending[n..];
  }

  lemma {:induction false} ServeAllKeepsLossless(h: History, rs: seq<Request>, highWater: nat)
    requires Fits(h) && Lossless(h) && highWater < TX_CAPACITY
    ensures Lossless(ServeAll(h, rs, highWater))
    decreases |rs|
  {
    hide Serve, Lossless;
    if rs != [] {
      ServeKeepsLossless(h, rs[0], highWater);
      ServeAllKeepsLossless(Serve(h, rs[0], highWater), rs[1..], highWater);
    }
  }

  /** End to end, for every run and however the bytes are taken: a receiver fed with them
      has received a prefix of the accepted frames, and all of them once the ring is empty. */
  lemma SentIsReceived(rs: seq<Request>, highWater: nat)
    requires highWater < TX_CAPACITY
    ensures var h := ServeAll(START, rs, highWater);
            var received := Frames(Run([], h.taken).events);
            received <= FramesOf(h.accepted) && (h.tx.pending == [] ==> received == FramesOf(h.accepted))
  {
    hide ServeAll, Run, Frames, Stream, Step;
    StartLossless();
    ServeAllKeepsLossless(START, rs, highWater);
    var h := ServeAll(START, rs, highWater);
    ReceivesFromBoundary([], FramesOf(h.accepted));
    RunConcat([], h.taken, h.tx.pending);
    var first := Run([], h.taken);
    FramesConcat(first.events, Run(first.held, h.tx.pending).events);
    if h.tx.pending == [] {
      assert h.taken + [] == h.taken;
    }
  }

  // ---------------------------------------------------------------------
  // The configured high water mark
  // ---------------------------------------------------------------------

  function Telemetry(size: nat): (m: Message)
    requires size <= MAX_PAYLOAD
    ensures Sendable(m) && !m.critical && |FrameBytes(FrameOf(m))| == HEADER_SIZE + size + CRC_SIZE
  {
    Message(0x61, 1, 0, seq(size, _ => 0), false)
  }

  /** Sixteen telemetry frames that together are as long as the ring. */
  function Filling(n: nat): seq<Request> {
    if n == 0 then [Enqueue(Telemetry(352))] else [Enqueue(Telemetry(512))] + Filling(n - 1)
  }

  lemma {:induction false} FillingWraps(h: History, n: nat, highWater: nat)
    requires Fits(h) && |h.tx.pending| + 522 * n + 362 == TX_CAPACITY <= highWater
    ensures var h' := ServeAll(h, Filling(n), highWater);
            h'.tx.pending == [] && h'.taken == h.taken && |h'.accepted| == |h.accepted| + n + 1
    decreases n
  {
    hide FrameBytes, Telemetry;
    if n == 0 {
      var next := Serve(h, Enqueue(Telemetry(352)), highWater);
      assert |next.tx.pending| == 0;
      assert Filling(0)[1..] == [];
    } else {
      var next := Serve(h, Enqueue(Telemetry(512)), highWater);
      assert Filling(n)[1..] == Filling(n - 1);
      FillingWraps(next, n - 1, highWater);
    }
  }

  lemma StreamNotEmpty(fs: seq<Frame>)
    requires AllWellFormed(fs) && fs != []
    ensures Stream(fs) != []
  {
  }

  /** Every run keeps accepted frames whole exactly when the high water mark is below the
      ring's capacity. The session takes the configured mark as it is. */
  lemma LosslessIffBelowCapacity(highWater: nat)
    ensures (forall rs :: Lossless(ServeAll(START, rs, highWater))) <==> highWater < TX_CAPACITY
  {
    hide ServeAll, Stream;
    if highWater < TX_CAPACITY {
      StartLossless();
      forall rs ensures Lossless(ServeAll(START, rs, highWater)) {
        ServeAllKeepsLossless(START, rs, highWater);
      }
    } else {
      FillingWraps(START, 15, highWater);
      var h := ServeAll(START, Filling(15), highWater);
      if Lossless(h) {
        StreamNotEmpty(FramesOf(h.accepted));
      }
    }
  }

  // ---------------------------------------------------------------------
  // Refusals
  // ---------------------------------------------------------------------

  /** The messages of one kind. */
  function OfKind(ms: seq<Message>, critical: bool): seq<Message> {
    if ms == [] then []
    else OfKind(ms[..|ms| - 1], critical) + if ms[|ms| - 1].critical == critical then [ms[|ms| - 1]] else []
  }

  lemma OneMoreOfKind(ms: seq<Message>, m: Message, critical: bool)
    ensures OfKind(ms + [m], critical) == OfKind(ms, critical) + if m.critical == critical then [m] else []
  {
    assert (ms + [m])[..|ms|] == ms;
  }

  /** The messages of one kind that a run asks to send and that could be framed at all. */
  function Asked(rs: seq<Request>, critical: bool): seq<Message> {
    if rs == [] then []
    else
      (if rs[0].Enqueue? && Sendable(rs[0].message) && rs[0].message.critical == critical then [rs[0].message] else [])
      + Asked(rs[1..], critical)
  }

  function CriticalBytes(rs: seq<Request>): nat {
    if rs == [] then 0
    else
      (if rs[0].Enqueue? && rs[0].message.critical && Sendable(rs[0].message)
       then HEADER_SIZE + |rs[0].message.payload| + CRC_SIZE else 0)
      + CriticalBytes(rs[1..])
  }

  /** Of either kind every message that can be framed is accepted, or counted once as refused by the
      counter of its kind; and what is called bytes dropped counts refused messages. */
  lemma {:induction false} RequestsAccounted(h: History, rs: seq<Request>, highWater: nat)
    requires Fits(h)
    ensures var h' := ServeAll(h, rs, highWater);
            var c, d := h.tx.counters, h'.tx.counters;
            && |Asked(rs, true)| == (|OfKind(h'.accepted, true)| - |OfKind(h.accepted, true)|)
                                    + (d.responseDropped - c.responseDropped)
            && |Asked(rs, false)| == (|OfKind(h'.accepted, false)| - |OfKind(h.accepted, false)|)
                                     + (d.telemetryDropped - c.telemetryDropped)
            && d.framesTx - c.framesTx == |h'.accepted| - |h.accepted|
            && d.txBytesDropped - c.txBytesDropped
               == (d.telemetryDropped - c.telemetryDropped) + (d.responseDropped - c.responseDropped)
    decreases |rs|
  {
    hide OfKind, Serve;
    if rs != [] {
      RequestAccounted(h, rs[0], highWater);
      RequestsAccounted(Serve(h, rs[0], highWater), rs[1..], highWater);
    }
  }

  lemma RequestAccounted(h: History, r: Request, highWater: nat)
    requires Fits(h)
    ensures var h' := Serve(h, r, highWater);
            var c, d := h.tx.counters, h'.tx.counters;
            var asked := r.Enqueue? && Sendable(r.message);
            && (if asked && r.message.critical then 1 else 0)
               == (|OfKind(h'.accepted, true)| - |OfKind(h.accepted, true)|) + (d.responseDropped - c.responseDropped)
            && (if asked && !r.message.critical then 1 else 0)
               == (|OfKind(h'.accepted, false)| - |OfKind(h.accepted, false)|)
                  + (d.telemetryDropped - c.telemetryDropped)
            && d.framesTx - c.framesTx == |h'.accepted| - |h.accepted|
            && d.txBytesDropped - c.txBytesDropped
               == (d.telemetryDropped - c.telemetryDropped) + (d.responseDropped - c.responseDropped)
  {
    hide FrameBytes, OfKind, Written;
    if r.Enqueue? {
      OneMoreOfKind(h.accepted, r.message, true);
      OneMoreOfKind(h.accepted, r.message, false);
    }
  }

  /** Telemetry cannot crowd out responses: while the responses of a run fit into what the
      high water mark leaves free, all of them are accepted, in order, whatever telemetry is sent. */
  lemma {:induction false} ResponsesNotCrowdedOut(h: History, rs: seq<Request>, highWater: nat, sent: nat)
    requires |h.tx.pending| <= highWater + sent
    requires highWater + sent + CriticalBytes(rs) < TX_CAPACITY
    ensures Fits(h)
    ensures OfKind(ServeAll(h, rs, highWater).accepted, true) == OfKind(h.accepted, true) + Asked(rs, true)
    decreases |rs|
  {
    hide FrameBytes, OfKind;
    if rs != [] {
      var next := Serve(h, rs[0], highWater);
      match rs[0]
      case TakeTx(max) =>
        ResponsesNotCrowdedOut(next, rs[1..], highWater, sent);
      case Enqueue(m) =>
        if Sendable(m) {
          SendableIsWellFormed(m);
        }
        OneMoreOfKind(h.accepted, m, true);
        ResponsesNotCrowdedOut(next, rs[1..], highWater, sent + (CriticalBytes(rs) - CriticalBytes(rs[1..])));
    }
  }
}
