/** Analysis windows that move along a stream, and the in-place pre-emphasis of one. */
module SampleWindows {

  /** n consecutive samples of a stream. */
  function Stretch(sample: nat -> real, start: nat, n: nat): (s: seq<real>)
    ensures |s| == n
  {
    seq(n, i requires 0 <= i < n => sample(start + i))
  }

  /** Appending samples and forgetting as many of the oldest. */
  function Hop(window: seq<real>, arrivals: seq<real>): (w: seq<real>)
    requires |arrivals| <= |window|
    ensures |w| == |window|
  {
    window[|arrivals|..] + arrivals
  }

  /** `std::move(begin + h, end, begin)`: front to back, so no element is read after being overwritten. */
  method ShiftDown(window: array<real>, h: nat)
    requires h <= window.Length
    modifies window
    ensures window[..window.Length - h] == old(window[h..])
    ensures window[window.Length - h..] == old(window[window.Length - h..])
  {
    var n := window.Length;
    for i := 0 to n - h
      invariant forall j :: 0 <= j < i ==> window[j] == old(window[j + h])
      invariant forall j :: i <= j < n ==> window[j] == old(window[j])
    {
      window[i] := window[i + h];
    }
  }

  lemma StretchAt(sample: nat -> real, start: nat, n: nat, i: nat)
    requires i < n
    ensures Stretch(sample, start, n)[i] == sample(start + i)
  {
  }

  /** A hop along the stream is the stretch one hop later. */
  lemma HopAlongStream(sample: nat -> real, start: nat, n: nat, h: nat)
    requires h <= n
    ensures Hop(Stretch(sample, start, n), Stretch(sample, start + n, h)) == Stretch(sample, start + h, n)
  {
  }

  /** Advances the window by one hop of h samples of the stream. */
  method AdvanceWindow(window: array<real>, h: nat, sample: nat -> real, position: nat) returns (next: nat)
    requires h <= window.Length <= position
    requires window[..] == Stretch(sample, position - window.Length, window.Length)
    modifies window
    ensures next == position + h
    ensures window[..] == Hop(old(window[..]), Stretch(sample, position, h))
    ensures window[..] == Stretch(sample, next - window.Length, window.Length)
  {
    hide Stretch;
    var n := window.Length;
    ghost var before, arrivals := window[..], Stretch(sample, position, h);
    ShiftDown(window, h);
    next := position;
    for i := n - h to n
      invariant next == position + (i - (n - h))
      invariant window[..n - h] == before[h..]
      invariant window[n - h..i] == arrivals[..i - (n - h)]
    {
      StretchAt(sample, position, h, next - position);
      window[i] := sample(next);
      next := next + 1;
    }
    assert window[..] == window[..n - h] + window[n - h..n];
    HopAlongStream(sample, position - n, n, h);
  }

  /** Any number of hops. */
  method AdvanceHops(window: array<real>, h: nat, hops: nat, sample: nat -> real, position: nat) returns (next: nat)
    requires h <= window.Length <= position
    requires window[..] == Stretch(sample, position - window.Length, window.Length)
    modifies window
    ensures next == position + hops * h
    ensures window[..] == Stretch(sample, next - window.Length, window.Length)
    ensures forall j :: 0 <= j < window.Length ==> window[j] == sample(position + hops * h - window.Length + j)
  {
    next := position;
    for k := 0 to hops
      invariant next == position + k * h
      invariant window.Length <= next && window[..] == Stretch(sample, next - window.Length, window.Length)
    {
      next := AdvanceWindow(window, h, sample, next);
      assert (k + 1) * h == k * h + h;
    }
    forall j | 0 <= j < window.Length ensures window[j] == sample(position + hops * h - window.Length + j) {
      StretchAt(sample, next - window.Length, window.Length, j);
      assert window[j] == window[..][j];
    }
  }

  /** The old sliding storage: one sample in, one out. */
  method Slide(frame: array<real>, x: real)
    requires frame.Length > 0
    modifies frame
    ensures frame[..] == Hop(old(frame[..]), [x])
  {
    ShiftDown(frame, 1);
    frame[frame.Length - 1] := x;
    assert old(frame[..])[1..] == old(frame[1..]);
  }

  /** Single-sample steps, one after the other. */
  function Slides(window: seq<real>, arrivals: seq<real>): (w: seq<real>)
    requires window != []
    ensures |w| == |window|
    decreases |arrivals|
  {
    if arrivals == [] then window else Slides(Hop(window, [arrivals[0]]), arrivals[1..])
  }

  /** A hop of h samples is h single-sample steps. */
  lemma {:induction false} HopIsSlides(window: seq<real>, arrivals: seq<real>)
    requires window != [] && |arrivals| <= |window|
    ensures Hop(window, arrivals) == Slides(window, arrivals)
    decreases |arrivals|
  {
    if arrivals == [] {
      assert window[0..] + [] == window;
    } else {
      var once := Hop(window, [arrivals[0]]);
      HopIsSlides(once, arrivals[1..]);
      assert once[|arrivals| - 1..] == window[|arrivals|..] + [arrivals[0]];
      assert arrivals == [arrivals[0]] + arrivals[1..];
      assert window[|arrivals|..] + [arrivals[0]] + arrivals[1..] == window[|arrivals|..] + arrivals;
    }
  }

  /** The samples the storage benchmark feeds: a counter modulo 1024, scaled. */
  function Ramp(i: nat): real {
    (i % 1024) as real / 1024.0
  }

  lemma OneArrives(sample: nat -> real, start: nat, n: nat)
    requires n > 0
    ensures Hop(Stretch(sample, start, n), [sample(start + n)]) == Stretch(sample, start + 1, n)
  {
    HopAlongStream(sample, start, n, 1);
    assert Stretch(sample, start + n, 1) == [sample(start + n)];
  }

  lemma LastOfRamp(samples: nat, j: nat)
    requires samples >= 1024 && j < 1024
    ensures Stretch(Ramp, samples - 1024, 1024)[j] == ((samples + j) % 1024) as real / 1024.0
  {
    StretchAt(Ramp, samples - 1024, 1024, j);
    assert Ramp(samples - 1024 + j) == ((samples + j) % 1024) as real / 1024.0;
  }

  /** The benchmark leaves the last 1024 of them in its frame. */
  method OldSlidingStorage(samples: nat) returns (frame: array<real>)
    requires samples >= 1024
    ensures fresh(frame) && frame.Length == 1024
    ensures forall j :: 0 <= j < 1024 ==> frame[j] == ((samples + j) % 1024) as real / 1024.0
  {
    frame := FirstRamp();
    hide Stretch, Ramp, Hop;
    for i := 1024 to samples
      invariant frame[..] == Stretch(Ramp, i - 1024, 1024)
    {
      OneArrives(Ramp, i - 1024, 1024);
      Slide(frame, Ramp(i));
    }
    forall j | 0 <= j < 1024 ensures frame[j] == ((samples + j) % 1024) as real / 1024.0 {
      LastOfRamp(samples, j);
      assert frame[j] == frame[..][j];
    }
  }

  method FirstRamp() returns (frame: array<real>)
    ensures fresh(frame) && frame.Length == 1024
    ensures frame[..] == Stretch(Ramp, 0, 1024)
  {
    frame := new real[1024];
    for i := 0 to 1024
      invariant forall j :: 0 <= j < i ==> frame[j] == Ramp(j)
    {
      frame[i] := i as real / 1024.0;
    }
  }

  // ---------------------------------------------------------------------
  // Pre-emphasis
  // ---------------------------------------------------------------------

  function Emphasized(x: real, before: real, k: real): real {
    x - k * before
  }

  function Windowed(x: real, w: real): real {
    x * w
  }

  /** Out of place: pre-emphasis into one buffer, then the window. */
  function PreEmphasis(frame: seq<real>, k: real): (s: seq<real>)
    ensures |s| == |frame|
  {
    seq(|frame|, i requires 0 <= i < |frame| => if i == 0 then frame[0] else Emphasized(frame[i], frame[i - 1], k))
  }

  function ApplyWindow(s: seq<real>, w: nat -> real): (t: seq<real>)
    ensures |t| == |s|
  {
    seq(|s|, i requires 0 <= i < |s| => Windowed(s[i], w(i)))
  }

  /** The two passes written out. */
  lemma PassesAt(frame: seq<real>, k: real, w: nat -> real, i: nat)
    requires i < |frame|
    ensures ApplyWindow(PreEmphasis(frame, k), w)[i]
         == (if i == 0 then frame[0] else frame[i] - k * frame[i - 1]) * w(i)
  {
    hide PreEmphasis;
    assert ApplyWindow(PreEmphasis(frame, k), w)[i] == PreEmphasis(frame, k)[i] * w(i);
    EmphasisAt(frame, k, i);
  }

  lemma EmphasisAt(frame: seq<real>, k: real, i: nat)
    requires i < |frame|
    ensures PreEmphasis(frame, k)[i] == if i == 0 then frame[0] else frame[i] - k * frame[i - 1]
  {
  }

  lemma NothingAtZero(x: real)
    ensures Windowed(x, 0.0) == 0.0
  {
  }

  /** In place, from the back: every predecessor is read before it is overwritten. For every
      frame and every window that starts at zero the result is that of the two out-of-place
      passes. */
  method PreEmphasizeInPlace(frame: array<real>, k: real, w: nat -> real)
    requires frame.Length > 0 && w(0) == 0.0
    modifies frame
    ensures frame[..] == ApplyWindow(PreEmphasis(old(frame[..]), k), w)
  {
    hide Emphasized, Windowed;
    var i := frame.Length - 1;
    while i > 0
      invariant 0 <= i < frame.Length
      invariant forall j :: 0 <= j <= i ==> frame[j] == old(frame[j])
      invariant forall j :: i < j < frame.Length ==>
                  frame[j] == Windowed(Emphasized(old(frame[j]), old(frame[j - 1]), k), w(j))
    {
      frame[i] := Windowed(Emphasized(frame[i], frame[i - 1], k), w(i));
      i := i - 1;
    }
    frame[0] := 0.0;
    NothingAtZero(old(frame[0]));
  }
}
