/** The microdropout detector: windowed energies by prefix sums, dip events by frame, and the
    sample ranges its classifier reads. */
module Microdropouts {
  import opened Segmentation

  const WINDOW := 240
  const HOP := 24
  const RATE := 48000

  /** 40 ms of samples. */
  const MARGIN := 1920

  function FrameCount(n: nat): nat
    requires n >= WINDOW
  {
    (n - WINDOW) / HOP
  }

  /** A frame is looked at exactly if another hop would fit after its window, so the last window that
      fits may not be. */
  lemma FramesExamined(n: nat, frame: nat)
    requires n >= WINDOW
    ensures frame < FrameCount(n) <==> 24 * frame + 240 + 24 <= n
  {
  }

  function Square(x: real): real {
    x * x
  }

  /** The last entry of `np.cumsum(x**2)` over the first k samples. */
  function PrefixEnergy(x: seq<real>, k: nat): real
    requires k <= |x|
  {
    if k == 0 then 0.0 else PrefixEnergy(x, k - 1) + Square(x[k - 1])
  }

  /** The cumulative sums, padded with a leading zero. */
  function Cumulative(x: seq<real>): (c: seq<real>)
    ensures |c| == |x| + 1
  {
    seq(|x| + 1, k requires 0 <= k <= |x| => PrefixEnergy(x, k))
  }

  /** What a window's energy means. */
  function DirectEnergy(x: seq<real>, start: nat, length: nat): real
    requires start + length <= |x|
    decreases length
  {
    if length == 0 then 0.0 else x[start] * x[start] + DirectEnergy(x, start + 1, length - 1)
  }

  lemma SquareIsProduct(x: real)
    ensures Square(x) == x * x
  {
  }

  lemma {:induction false} EnergyByPrefix(x: seq<real>, start: nat, length: nat)
    requires start + length <= |x|
    ensures PrefixEnergy(x, start + length) - PrefixEnergy(x, start) == DirectEnergy(x, start, length)
    decreases length
  {
    if length > 0 {
      EnergyByPrefix(x, start + 1, length - 1);
      SquareIsProduct(x[start]);
    }
  }

  /** Every frame reads inside the cumulative sums, and the difference it takes is its window's energy. */
  lemma FrameEnergy(x: seq<real>, frame: nat)
    requires |x| >= WINDOW && frame < FrameCount(|x|)
    ensures var at := 24 * frame;
            && at + 240 < |Cumulative(x)|
            && Cumulative(x)[at + 240] - Cumulative(x)[at] == DirectEnergy(x, at, 240)
  {
    hide PrefixEnergy, DirectEnergy;
    EnergyByPrefix(x, frame * HOP, WINDOW);
  }

  function DurationMs(frames: nat): real {
    frames as real * (HOP as real / RATE as real) * 1000.0
  }

  function Within(minMs: real, maxMs: real): nat -> bool {
    (frames: nat) => minMs <= DurationMs(frames) <= maxMs
  }

  datatype Event = Event(startSample: nat, endSample: nat)

  function EventOf(r: Run): Event {
    Event(r.start * HOP + WINDOW / 2, r.end * HOP + WINDOW / 2)
  }

  /** A maximal run of dips that ended before the last frame and lasted neither too short nor too
      long, at half a millisecond a frame. */
  predicate Reportable(isDip: seq<bool>, minMs: real, maxMs: real, r: Run) {
    && r in Runs(isDip) && r.start <= r.end < |isDip|
    && minMs <= (r.end - r.start) as real / 2.0 <= maxMs
  }

  /** The events of a signal of n samples whose frames are marked as dips or not. */
  method Detect(n: nat, isDip: seq<bool>, minMs: real, maxMs: real) returns (events: seq<Run>)
    requires n >= WINDOW && |isDip| == FrameCount(n)
    ensures forall r: Run :: r in events <==> Reportable(isDip, minMs, maxMs, r)
    ensures InOrder(events)
  {
    hide Runs, Keep, ClosedBy;
    events := Dips(isDip, Within(minMs, maxMs));
    DipsIff(isDip, Within(minMs, maxMs));
  }

  /** Every event runs from the middle of its first frame's window to the middle of the window after
      its last, spans at least one sample and ends before the signal does, so both slices
      the classifier takes, the event and its 40 ms surroundings, are inside and not empty. */
  lemma EventBounds(n: nat, isDip: seq<bool>, r: Run)
    requires n >= WINDOW && |isDip| == FrameCount(n)
    requires r in Runs(isDip) && r.end < |isDip|
    ensures var e := EventOf(r);
            var s0 := if e.startSample < MARGIN then 0 else e.startSample - MARGIN;
            var s1 := if n < e.endSample + MARGIN then n else e.endSample + MARGIN;
            && e.startSample < e.endSample < n
            && s0 <= e.startSample && e.endSample <= s1 <= n
            && 2 * e.startSample == 24 * r.start + (24 * r.start + 240)
            && 2 * e.endSample == 24 * r.end + (24 * r.end + 240)
  {
    RunsInOrder(isDip);
  }
}
