/** A receiver that joins back-to-back VoxLink frames inside one: from which frame on it is
    sure to receive every one, provided the frames' bytes show the start mark only where a
    frame starts. */
module VoxLinkJoin {
  import opened Crc16
  import opened CrcTrailer
  import opened VoxLinkCodec
  import opened VoxLinkStream

  predicate MarkAt(data: seq<byte>, p: nat) {
    p + 1 < |data| && data[p] == SOF0 && data[p + 1] == SOF1
  }

  /** The start mark occurs in the frame's bytes only at their front. */
  ghost predicate Clean(f: Frame)
    requires WellFormed(f)
  {
    forall p: nat :: MarkAt(FrameBytes(f), p) ==> p == 0
  }

  ghost predicate AllClean(fs: seq<Frame>) {
    AllWellFormed(fs) && forall i :: 0 <= i < |fs| ==> Clean(fs[i])
  }

  /** Where the k-th frame begins. */
  function Offset(fs: seq<Frame>, k: nat): nat
    requires AllWellFormed(fs) && k <= |fs|
  {
    |Stream(fs[..k])|
  }

  lemma {:induction false} StreamConcat(a: seq<Frame>, b: seq<Frame>)
    requires AllWellFormed(a) && AllWellFormed(b)
    ensures AllWellFormed(a + b) && Stream(a + b) == Stream(a) + Stream(b)
    decreases |a|
  {
    hide FrameBytes;
    if a == [] {
      assert a + b == b;
    } else {
      assert (a + b)[1..] == a[1..] + b;
      StreamConcat(a[1..], b);
    }
  }

  lemma StreamAt(fs: seq<Frame>, k: nat)
    requires AllWellFormed(fs) && k < |fs|
    ensures Stream(fs) == Stream(fs[..k]) + (FrameBytes(fs[k]) + Stream(fs[k + 1..]))
    ensures Offset(fs, k + 1) == Offset(fs, k) + |FrameBytes(fs[k])|
  {
    hide FrameBytes;
    assert fs == fs[..k] + fs[k..];
    StreamConcat(fs[..k], fs[k..]);
    assert fs[..k + 1] == fs[..k] + [fs[k]];
    StreamConcat(fs[..k], [fs[k]]);
    StreamOfOne(fs[k]);
  }

  // ---------------------------------------------------------------------
  // Out of the candidate, and on to the next frame
  // ---------------------------------------------------------------------

  /** The most bytes a candidate can grow to: a header of another version is given up once whole. */
  function Longest(held: seq<byte>): nat
    requires |held| >= 3
  {
    if held[2] / 16 == VERSION_MAJOR then MAX_FRAME else HEADER_SIZE
  }

  lemma StepWithinLongest(held: seq<byte>, b: byte)
    requires Partial(held) && |held| >= 3
    ensures |held| < Longest(held)
    ensures var h := Step(held, b).held;
            h == [] || (h == held + [b] && Longest(h) == Longest(held))
  {
  }

  /** A receiver inside a candidate is hunting again once that candidate has had its longest run,
      and has delivered at most the candidate. */
  lemma {:induction false} CandidateEnds(held: seq<byte>, data: seq<byte>) returns (t: nat)
    requires Partial(held) && |held| >= 3
    ensures t <= |data| && |held| + t <= Longest(held)
    ensures var r := Run(held, data[..t]);
            |Frames(r.events)| <= 1 && (r.held == [] || (t == |data| && r.events == []))
    ensures data != [] ==> t > 0
    decreases |data|
  {
    hide Step, Partial, Frames;
    StepWithinLongest(held, 0);
    if data == [] {
      t := 0;
      FramesOfFew([]);
    } else {
      var first := Step(held, data[0]);
      StepWithinLongest(held, data[0]);
      StepEndsOrKeeps(held, data[0]);
      if first.held == [] {
        t := 1;
        RunOne(held, data[0]);
        assert data[..1] == [data[0]];
        FramesOfFew(first.events);
      } else {
        var rest := CandidateEnds(first.held, data[1..]);
        t := rest + 1;
        assert data[..t][1..] == data[1..][..rest];
        NothingFirst(Run(first.held, data[1..][..rest]).events);
      }
    }
  }

  lemma RunOne(held: seq<byte>, b: byte)
    requires Partial(held)
    ensures Run(held, [b]) == Step(held, b)
  {
    hide Step, Partial;
    var r := Step(held, b);
    assert [b][1..] == [];
    assert r.events + [] == r.events;
  }

  lemma FramesOfFew(events: seq<Event>)
    requires |events| <= 1
    ensures |Frames(events)| <= 1
  {
  }

  lemma HuntingStepQuiet(held: seq<byte>, b: byte)
    requires Partial(held) && |held| <= 1
    requires !(held == [SOF0] && b == SOF1)
    ensures var h := Step(held, b).held;
            Step(held, b).events == [] && h == if b == SOF0 then [SOF0] else []
  {
  }

  /** Hunting through bytes without the start mark starts no candidate. */
  lemma {:induction false} HuntsOn(held: seq<byte>, data: seq<byte>)
    requires Partial(held) && |held| <= 1
    requires forall p: nat :: !MarkAt(held + data, p)
    ensures var r := Run(held, data);
            |r.held| <= 1 && r.events == []
    decreases |data|
  {
    hide Step;
    if data != [] {
      assert !MarkAt(held + data, 0);
      HuntingStepQuiet(held, data[0]);
      var h := Step(held, data[0]).held;
      forall p: nat ensures !MarkAt(h + data[1..], p) {
        assert !MarkAt(held + data, p + |held| + 1 - |h|);
      }
      HuntsOn(h, data[1..]);
    }
  }

  /** The first frame that begins at t or later. */
  lemma NextFrame(fs: seq<Frame>, t: nat) returns (k: nat)
    requires AllWellFormed(fs) && 0 < t <= |Stream(fs)|
    ensures k < |fs| && Offset(fs, k) < t <= Offset(fs, k + 1)
  {
    hide Stream;
    assert fs[..|fs|] == fs;
    k := |fs|;
    while k > 0 && t <= Offset(fs, k)
      invariant k <= |fs|
      invariant k < |fs| ==> t <= Offset(fs, k + 1)
    {
      k := k - 1;
    }
    NoneSent(fs);
  }

  lemma NoneSent(fs: seq<Frame>)
    requires AllWellFormed(fs)
    ensures Offset(fs, 0) == 0
  {
  }

  /** From inside a frame's bytes, hunting, all the following frames are received. */
  lemma ReceivesAfter(f: Frame, m: nat, fs: seq<Frame>)
    requires WellFormed(f) && Clean(f) && 0 < m <= |FrameBytes(f)| && AllWellFormed(fs)
    ensures Frames(Run([], FrameBytes(f)[m..] + Stream(fs)).events) == fs
  {
    hide FrameBytes, Stream, Run, Frames;
    var rest := FrameBytes(f)[m..];
    forall p: nat ensures !MarkAt([] + rest, p) {
      assert [] + rest == rest;
      assert !MarkAt(FrameBytes(f), m + p);
    }
    HuntsOn([], rest);
    var r := Run([], rest);
    RunConcat([], rest, Stream(fs));
    NothingFirst(Run(r.held, Stream(fs)).events);
    ReceivesFromBoundary(r.held, fs);
  }

  /** Any receiver leaves its candidate, if it is in one, within 519 bytes of clean frames. */
  lemma LeavesCandidate(held: seq<byte>, fs: seq<Frame>) returns (t: nat)
    requires Partial(held) && |held| >= 2 && AllWellFormed(fs) && fs != []
    ensures 0 < t <= |Stream(fs)| && t <= MAX_FRAME - 3
    ensures var r := Run(held, Stream(fs)[..t]);
            |Frames(r.events)| <= 1 && (r.held == [] || (t == |Stream(fs)| && r.events == []))
  {
    hide Stream, Step, Run, Frames, Partial;
    StreamBegins(fs);
    var data := Stream(fs);
    if |held| >= 3 {
      t := CandidateEnds(held, data);
    } else {
      PairHolds(held, data[0]);
      var rest := CandidateEnds(held + [SOF0], data[1..]);
      t := rest + 1;
      assert data[..t] == [data[0]] + data[1..][..rest];
      RunConcat(held, [data[0]], data[1..][..rest]);
      RunOne(held, data[0]);
      NothingFirst(Run(held + [SOF0], data[1..][..rest]).events);
    }
  }

  lemma PairHolds(held: seq<byte>, b: byte)
    requires Partial(held) && |held| == 2
    ensures Step(held, b) == Outcome(held + [b], [])
    ensures b == SOF0 ==> Longest(held + [b]) == HEADER_SIZE
  {
  }

  /** A receiver in whatever state, from inside whatever frame or noise, receives all of these frames
      but a front whose last frame starts less than 519 bytes on, each of them once and in order;
      before them it can deliver one frame, the one its candidate turns out to be. */
  lemma JoinRecovers(held: seq<byte>, fs: seq<Frame>) returns (before: seq<Frame>, k: nat)
    requires Partial(held) && AllClean(fs)
    ensures |before| <= 1 && k <= |fs| && (k > 0 ==> Offset(fs, k - 1) < MAX_FRAME - 3)
    ensures Frames(Run(held, Stream(fs)).events) == before + fs[k..]
  {
    hide FrameBytes, Stream, Run, Frames, Partial, Clean;
    before, k := [], 0;
    if |held| <= 1 {
      ReceivesFromBoundary(held, fs);
    } else if fs == [] {
      NothingSent(held);
    } else {
      var t := LeavesCandidate(held, fs);
      var j := NextFrame(fs, t);
      StreamAt(fs, j);
      var data, m := Stream(fs), t - Offset(fs, j);
      var r := Run(held, data[..t]);
      before, k := Frames(r.events), j + 1;
      assert data == data[..t] + data[t..];
      if r.held == [] {
        RestOfStream(Stream(fs[..j]), FrameBytes(fs[j]), Stream(fs[k..]), m);
        RunConcat(held, data[..t], data[t..]);
        ReceivesAfter(fs[j], m, fs[k..]);
        FramesConcat(r.events, Run([], data[t..]).events);
      } else {
        assert data[..t] == data;
        FramesOfFew([]);
        LastFrame(fs, j);
        NoFrames();
      }
    }
  }

  lemma RestOfStream(a: seq<byte>, b: seq<byte>, c: seq<byte>, m: nat)
    requires m <= |b|
    ensures (a + (b + c))[|a| + m..] == b[m..] + c
  {
  }

  lemma NoFrames()
    ensures Frames([]) == []
  {
  }

  /** A frame that ends the stream is its last. */
  lemma LastFrame(fs: seq<Frame>, j: nat)
    requires AllWellFormed(fs) && j < |fs| && Offset(fs, j + 1) >= |Stream(fs)|
    ensures j + 1 == |fs|
  {
    hide FrameBytes, Stream;
    if j + 1 < |fs| {
      StreamAt(fs, j);
      StreamBegins(fs[j + 1..]);
    }
  }

  // ---------------------------------------------------------------------
  // 519 is the least such bound
  // ---------------------------------------------------------------------

  predicate NoMarks(s: seq<byte>) {
    forall i :: 0 <= i < |s| ==> s[i] != SOF0
  }

  /** A frame without start marks is clean unless its CRC reads as one. */
  lemma CleanUnlessCrc(f: Frame)
    requires WellFormed(f) && NoMarks(Body(f)) && Trailer(Checksum(Body(f))) != [SOF0, SOF1]
    ensures Clean(f)
  {
    hide Body, Checksum, Trailer;
    var wire, crc := FrameBytes(f), Trailer(Checksum(Body(f)));
    var n := |Body(f)|;
    forall p: nat | p > 0 ensures !MarkAt(wire, p) {
      if 2 <= p < n + 2 {
        assert wire[p] == Body(f)[p - 2];
      } else if p == n + 2 {
        assert crc == [wire[p], wire[p + 1]];
      }
    }
  }

  /** Two messages that differ in one byte have different CRCs. */
  lemma OneByteApart(a: seq<byte>, x: byte, y: byte, b: seq<byte>)
    requires x != y
    ensures Trailer(Checksum(a + [x] + b)) != Trailer(Checksum(a + [y] + b))
  {
    hide Checksum, Trailer, Accepts, ByteBits;
    var u, v := a + [x] + b, a + [y] + b;
    assert u[|a|] != v[|a|];
    BitsConcat(a + [x], b);
    BitsConcat(a + [y], b);
    BitsConcat(a, [x]);
    BitsConcat(a, [y]);
    assert AgreeOutsideBurst(Bits(u), Bits(v), |Bits(a)|);
    ChecksumDetectsBurst(u, v, |Bits(a)|);
    SameTrailer(u, v);
  }

  lemma SameTrailer(u: seq<byte>, v: seq<byte>)
    requires Checksum(u) != Checksum(v)
    ensures Trailer(Checksum(u)) != Trailer(Checksum(v))
  {
    hide Checksum, Trailer;
    AcceptsOnlyTrailer(u, Trailer(Checksum(u)));
    AcceptsOnlyTrailer(v, Trailer(Checksum(v)));
  }

  /** Of two frames that differ in their sequence number one at least is clean. */
  lemma SomeClean(msgType: byte, flags: byte, payload: seq<byte>) returns (f: Frame)
    requires |payload| <= MAX_PAYLOAD && NoMarks([msgType, flags] + PutU16(|payload|) + payload)
    ensures WellFormed(f) && Clean(f)
    ensures f.version == VERSION && f.msgType == msgType && f.flags == flags && f.payload == payload
  {
    hide Checksum, Trailer, PutU16;
    var front, rest := [VERSION, msgType, flags], PutU16(|payload|) + payload;
    assert forall i :: 0 <= i < |rest| ==> rest[i] == ([msgType, flags] + PutU16(|payload|) + payload)[i + 2];
    var g := Frame(VERSION, msgType, flags, 1, payload);
    f := Frame(VERSION, msgType, flags, 0, payload);
    assert msgType == ([msgType, flags] + PutU16(|payload|) + payload)[0];
    assert flags == ([msgType, flags] + PutU16(|payload|) + payload)[1];
    assert Body(f) == front + [0] + rest;
    assert Body(g) == front + [1] + rest;
    OneByteApart(front, 0, 1, rest);
    if Trailer(Checksum(Body(f))) == [SOF0, SOF1] {
      f := g;
    }
    CleanUnlessCrc(f);
  }

  /** Three bytes into a candidate the header of such a frame is read as the longest length. */
  lemma TakenForLongest(f: Frame, b: byte)
    requires WellFormed(f) && f.msgType == 0 && f.flags == 2 && |f.payload| == MAX_PAYLOAD - 4
    ensures var held := [SOF0, SOF1, VERSION];
            && Partial(held) && Partial(held + FrameBytes(f))
            && var r := Step(held + FrameBytes(f), b);
            r.held == [] && forall g :: g in Frames(r.events) ==> |g.payload| == MAX_PAYLOAD
  {
    hide Checksum, Trailer, Accepts;
    var h := [SOF0, SOF1, VERSION] + FrameBytes(f);
    assert h[6] == 0 && h[7] == 2;
    assert |h| == MAX_FRAME - 1;
    OneEventFrames(Step(h, b).events);
  }

  lemma OneEventFrames(events: seq<Event>)
    requires |events| <= 1
    ensures forall g :: g in Frames(events) ==> events == [Valid(g)]
  {
  }

  /** A frame that starts 518 bytes on can be lost. */
  lemma JoinBoundIsLeast() returns (held: seq<byte>, fs: seq<Frame>)
    ensures Partial(held) && AllClean(fs) && |fs| == 2 && Offset(fs, 1) == MAX_FRAME - 4
    ensures fs[1] !in Frames(Run(held, Stream(fs)).events)
  {
    hide FrameBytes, Stream, Run, Frames, Partial, Clean, Step;
    var f := SomeClean(0, 2, seq(MAX_PAYLOAD - 4, _ => 0));
    var g := SomeClean(1, 0, []);
    held, fs := [SOF0, SOF1, VERSION], [f, g];
    var front, last := FrameBytes(f), FrameBytes(g);
    StreamOfTwo(f, g);
    var h := held + front;
    TakenForLongest(f, last[0]);
    Collect(held, front);
    var r := Step(h, last[0]);
    RunOne(h, last[0]);
    RunConcat(held, front, [last[0]]);
    NothingFirst(r.events);
    var tail := Run([], last[1..]);
    DeliveryTakesBytes([], last[1..]);
    RunConcat(held, front + [last[0]], last[1..]);
    FramesConcat(r.events, tail.events);
    assert Stream(fs) == front + [last[0]] + last[1..];
  }

  lemma StreamOfTwo(f: Frame, g: Frame)
    requires WellFormed(f) && WellFormed(g)
    ensures Stream([f, g]) == FrameBytes(f) + FrameBytes(g)
    ensures Offset([f, g], 1) == |FrameBytes(f)|
  {
    hide FrameBytes, Stream;
    assert [f, g] == [f] + [g] && [f, g][..1] == [f];
    StreamConcat([f], [g]);
    StreamOfOne(f);
    StreamOfOne(g);
  }
}
