/** Tempo estimates from recent taps and MIDI clock ticks, as statements about
    everything that has been tapped. */
module TempoTrackers {
  import opened Common

  /** `times[-max:]`; a bound of zero keeps everything. */
  function LastUpTo(times: seq<real>, max: nat): seq<real> {
    if max == 0 || |times| <= max then times else times[|times| - max..]
  }

  /** One more timestamp: a long pause starts over. */
  function Record(times: seq<real>, t: real, max: nat, timeout: real): seq<real> {
    var kept := if times != [] && t - times[|times| - 1] > timeout then [] else times;
    LastUpTo(kept + [t], max)
  }

  function Stored(history: seq<real>, max: nat, timeout: real): seq<real> {
    if history == [] then []
    else Record(Stored(history[..|history| - 1], max, timeout), history[|history| - 1], max, timeout)
  }

  /** Every gap in the list that is a step forward. */
  function PositiveGaps(times: seq<real>): (gaps: seq<real>)
    ensures forall g :: g in gaps ==> g > 0.0
  {
    if |times| < 2 then []
    else
      var before := PositiveGaps(times[..|times| - 1]);
      var gap := times[|times| - 1] - times[|times| - 2];
      if gap > 0.0 then before + [gap] else before
  }

  function Sum(xs: seq<real>): real {
    if xs == [] then 0.0 else Sum(xs[..|xs| - 1]) + xs[|xs| - 1]
  }

  function MeanGap(times: seq<real>): Option<real> {
    var gaps := PositiveGaps(times);
    if gaps == [] then None else Some(Sum(gaps) / |gaps| as real)
  }

  // ---- The whole history ----

  /** The last n timestamps follow each other without a long pause, and the one
      before them does not. */
  predicate IsCurrentRun(history: seq<real>, timeout: real, n: nat) {
    && n <= |history| && (history != [] ==> n > 0)
    && (forall i :: |history| - n < i < |history| ==> history[i] - history[i - 1] <= timeout)
    && (n < |history| ==> n > 0 && history[|history| - n] - history[|history| - n - 1] > timeout)
  }

  predicate NonDecreasing(times: seq<real>) {
    forall i :: 0 < i < |times| ==> times[i - 1] <= times[i]
  }

  function Suffix(history: seq<real>, n: nat): seq<real>
    requires n <= |history|
  {
    history[|history| - n..]
  }

  function WindowLength(run: nat, max: nat): nat {
    if max == 0 || run <= max then run else max
  }

  /** The stored list is the end of the current run, as far as it fits. */
  lemma {:induction false} StoredIsEndOfRun(history: seq<real>, max: nat, timeout: real) returns (n: nat)
    ensures IsCurrentRun(history, timeout, n)
    ensures Stored(history, max, timeout) == Suffix(history, WindowLength(n, max))
  {
    hide IsCurrentRun, Record;
    if history == [] {
      n := 0;
      assert IsCurrentRun(history, timeout, 0) by { NoRun(timeout); }
    } else {
      var front, t := history[..|history| - 1], history[|history| - 1];
      var before := StoredIsEndOfRun(front, max, timeout);
      var paused := front != [] && t - front[|front| - 1] > timeout;
      n := if paused then 1 else before + 1;
      assert history == front + [t];
      RunGrows(front, t, timeout, before);
      if paused {
        assert Record(Stored(front, max, timeout), t, max, timeout) == [t] by {
          RecordAfterPause(front, t, max, timeout, before);
        }
      } else {
        RecordInRun(front, t, max, timeout, before);
      }
    }
  }

  lemma NoRun(timeout: real)
    ensures IsCurrentRun([], timeout, 0)
  {
  }

  lemma RunGrows(front: seq<real>, t: real, timeout: real, n: nat)
    requires IsCurrentRun(front, timeout, n)
    ensures var paused := front != [] && t - front[|front| - 1] > timeout;
            IsCurrentRun(front + [t], timeout, if paused then 1 else n + 1)
  {
  }

  lemma RecordAfterPause(front: seq<real>, t: real, max: nat, timeout: real, n: nat)
    requires IsCurrentRun(front, timeout, n) && front != [] && t - front[|front| - 1] > timeout
    ensures Record(Suffix(front, WindowLength(n, max)), t, max, timeout) == [t]
  {
    assert Suffix(front, WindowLength(n, max))[WindowLength(n, max) - 1] == front[|front| - 1];
  }

  lemma RecordInRun(front: seq<real>, t: real, max: nat, timeout: real, n: nat)
    requires IsCurrentRun(front, timeout, n) && (front != [] ==> t - front[|front| - 1] <= timeout)
    ensures Record(Suffix(front, WindowLength(n, max)), t, max, timeout)
         == Suffix(front + [t], WindowLength(n + 1, max))
  {
    hide IsCurrentRun;
    assert n <= |front| && (front != [] ==> n > 0) by { RunIsInside(front, timeout, n); }
    var k := WindowLength(n, max);
    var window := Suffix(front, k);
    if front != [] {
      assert window[k - 1] == front[|front| - 1];
    }
    assert window + [t] == Suffix(front + [t], k + 1);
  }

  lemma RunIsInside(history: seq<real>, timeout: real, n: nat)
    requires IsCurrentRun(history, timeout, n)
    ensures n <= |history| && (history != [] ==> n > 0)
  {
  }

  lemma RunsAreUnique(history: seq<real>, timeout: real, m: nat, n: nat)
    requires IsCurrentRun(history, timeout, m) && IsCurrentRun(history, timeout, n)
    ensures m == n
  {
  }

  // ---- The estimate ----

  /** Positive gaps telescope: a pause of zero adds nothing. */
  lemma {:induction false} GapsTelescope(times: seq<real>)
    requires times != [] && NonDecreasing(times)
    ensures Sum(PositiveGaps(times)) == times[|times| - 1] - times[0]
    ensures PositiveGaps(times) == [] <==> times[|times| - 1] == times[0]
    decreases |times|
  {
    if |times| > 1 {
      var front := times[..|times| - 1];
      GapsTelescope(front);
      FirstIsLeast(front);
      var gap := times[|times| - 1] - times[|times| - 2];
      if gap > 0.0 {
        assert (PositiveGaps(front) + [gap])[..|PositiveGaps(front)|] == PositiveGaps(front);
      }
    }
  }

  lemma {:induction false} FirstIsLeast(times: seq<real>)
    requires times != [] && NonDecreasing(times)
    ensures times[0] <= times[|times| - 1]
    decreases |times|
  {
    if |times| > 1 {
      FirstIsLeast(times[..|times| - 1]);
    }
  }

  lemma {:induction false} GapsAreShort(times: seq<real>, timeout: real)
    requires forall i :: 0 < i < |times| ==> times[i] - times[i - 1] <= timeout
    ensures forall g :: g in PositiveGaps(times) ==> g <= timeout
  {
    if |times| >= 2 {
      GapsAreShort(times[..|times| - 1], timeout);
    }
  }

  lemma {:induction false} SumBetween(xs: seq<real>, most: real)
    requires forall x :: x in xs ==> 0.0 < x <= most
    ensures 0.0 <= Sum(xs) <= most * |xs| as real && (xs != [] ==> Sum(xs) > 0.0)
  {
    if xs != [] {
      var front := xs[..|xs| - 1];
      assert forall x :: x in front ==> x in xs;
      SumBetween(front, most);
      assert xs[|xs| - 1] in xs;
      assert most * |xs| as real == most * |front| as real + most;
    }
  }

  /** The mean gap of the stored window is its span by the number of its gaps,
      and no longer than the pause that ends a run. */
  lemma MeanIsSpanByCount(history: seq<real>, max: nat, timeout: real)
    requires history != [] && NonDecreasing(history)
    ensures var window := Stored(history, max, timeout);
            && window != []
            && (MeanGap(window).None? <==> window[0] == window[|window| - 1])
            && (MeanGap(window).Some? ==>
                  MeanGap(window).value == (window[|window| - 1] - window[0]) / |PositiveGaps(window)| as real
                  && 0.0 < MeanGap(window).value <= timeout)
  {
    hide Stored, PositiveGaps, Sum, MeanGap, IsCurrentRun;
    var n := StoredIsEndOfRun(history, max, timeout);
    RunIsInside(history, timeout, n);
    var window := Stored(history, max, timeout);
    assert NonDecreasing(window) && forall i :: 0 < i < |window| ==> window[i] - window[i - 1] <= timeout by {
      WindowOfRun(history, timeout, n, WindowLength(n, max));
    }
    GapsTelescope(window);
    GapsAreShort(window, timeout);
    SumBetween(PositiveGaps(window), timeout);
    MeanOf(window, timeout);
  }

  lemma MeanOf(window: seq<real>, timeout: real)
    ensures MeanGap(window).None? <==> PositiveGaps(window) == []
    ensures MeanGap(window).Some? ==> MeanGap(window).value == Sum(PositiveGaps(window)) / |PositiveGaps(window)| as real
    ensures MeanGap(window).Some? && 0.0 < Sum(PositiveGaps(window)) <= timeout * |PositiveGaps(window)| as real ==>
              0.0 < MeanGap(window).value <= timeout
  {
    hide Sum, PositiveGaps;
    var gaps := PositiveGaps(window);
    if gaps != [] && 0.0 < Sum(gaps) <= timeout * |gaps| as real {
      MeanWithin(Sum(gaps), |gaps|, timeout);
    }
  }

  lemma MeanWithin(sum: real, count: nat, most: real)
    requires count > 0 && 0.0 < sum <= most * count as real
    ensures 0.0 < sum / count as real <= most
  {
    var mean := sum / count as real;
    assert mean * count as real == sum;
    Cancel(mean, most, count as real);
    if mean <= 0.0 {
      Cancel(0.0, -mean, count as real);
    }
  }

  lemma Cancel(x: real, y: real, a: real)
    requires a > 0.0
    ensures x * a <= y * a <==> x <= y
  {
  }

  lemma WindowOfRun(history: seq<real>, timeout: real, n: nat, k: nat)
    requires history != [] && NonDecreasing(history) && IsCurrentRun(history, timeout, n) && 0 < k <= n
    ensures var window := Suffix(history, k);
            NonDecreasing(window) && forall i :: 0 < i < |window| ==> window[i] - window[i - 1] <= timeout
  {
    var window, from := Suffix(history, k), |history| - k;
    forall i | 0 < i < |window|
      ensures 0.0 <= window[i] - window[i - 1] <= timeout
    {
      assert window[i] == history[from + i] && window[i - 1] == history[from + i - 1];
    }
  }

  function BeatsPerMinute(secondsPerBeat: real): real
    requires secondsPerBeat > 0.0
  {
    60.0 / secondsPerBeat
  }

  lemma ShorterIsFaster(a: real, b: real)
    requires 0.0 < a <= b
    ensures BeatsPerMinute(a) >= BeatsPerMinute(b) > 0.0
  {
    var x, y := 60.0 / a, 60.0 / b;
    assert x * a == y * b == 60.0;
    if x < y {
      assert x * a < y * a;
      assert y * a <= y * b;
    }
  }

  /** The places where time moves on. */
  function ForwardSteps(times: seq<real>): set<int> {
    set i | 0 < i < |times| && MovesOn(times, i)
  }

  predicate MovesOn(times: seq<real>, i: int) {
    0 < i < |times| && times[i - 1] < times[i]
  }

  lemma {:induction false} OneGapPerStep(times: seq<real>)
    ensures |PositiveGaps(times)| == |ForwardSteps(times)|
  {
    if |times| >= 2 {
      var front, last := times[..|times| - 1], |times| - 1;
      OneGapPerStep(front);
      assert forall i :: 0 < i < last ==> (MovesOn(times, i) <==> MovesOn(front, i));
      if MovesOn(times, last) {
        assert ForwardSteps(times) == ForwardSteps(front) + {last};
      } else {
        assert ForwardSteps(times) == ForwardSteps(front);
      }
    } else {
      assert ForwardSteps(times) == {};
    }
  }

  // ---- Tap tempo ----

  /** The tempo of the taps before it is rounded to a step. */
  function TapTempo(window: seq<real>, minTaps: int): Option<real> {
    if |window| < minTaps then None
    else
      var mean := MeanGap(window);
      if mean.None? || mean.value <= 0.0 then None else Some(BeatsPerMinute(mean.value))
  }

  function Quantize(bpm: real, step: real): real
    requires step != 0.0
  {
    RoundHalfEven(bpm / step) as real * step
  }

  /** The tempo is rounded to the nearest multiple of the step, and half way
      between two of them to the even one. */
  lemma QuantizeIsNearest(bpm: real, step: real) returns (n: int)
    requires step > 0.0
    ensures Quantize(bpm, step) == n as real * step
    ensures -step / 2.0 <= bpm - Quantize(bpm, step) <= step / 2.0
    ensures bpm - Quantize(bpm, step) == step / 2.0 || bpm - Quantize(bpm, step) == -step / 2.0 ==> n % 2 == 0
  {
    hide RoundHalfEven;
    n := RoundHalfEven(bpm / step);
    RoundsToStep(bpm / step, n, step);
    assert bpm == bpm / step * step;
  }

  lemma RoundsToStep(x: real, n: int, step: real)
    requires step > 0.0 && -0.5 <= x - n as real <= 0.5
    ensures -step / 2.0 <= x * step - n as real * step <= step / 2.0
    ensures x * step - n as real * step == step / 2.0 ==> x - n as real == 0.5
    ensures x * step - n as real * step == -step / 2.0 ==> x - n as real == -0.5
  {
    var off := x - n as real;
    assert x * step - n as real * step == off * step;
    Cancel(off, 0.5, step);
    Cancel(-0.5, off, step);
    Cancel(0.5, off, step);
    Cancel(off, -0.5, step);
  }

  class TapTempoTracker {
    const resetTimeout: real
    const maxTaps: nat
    var minTaps: int // `configure` replaces it
    const quantizeStep: real
    var tapTimes: seq<real>
    ghost var history: seq<real>

    ghost predicate Valid()
      reads this
    {
      quantizeStep != 0.0 && tapTimes == Stored(history, maxTaps, resetTimeout)
    }

    constructor (minTaps: int, quantizeStep: real := 1.0, maxTaps: nat := 5, resetTimeout: real := 2.5)
      requires quantizeStep != 0.0
      ensures Valid() && history == []
      ensures this.minTaps == minTaps && this.quantizeStep == quantizeStep
      ensures this.maxTaps == maxTaps && this.resetTimeout == resetTimeout
    {
      this.minTaps, this.quantizeStep, this.maxTaps, this.resetTimeout := minTaps, quantizeStep, maxTaps, resetTimeout;
      tapTimes, history := [], [];
    }

    method RegisterTap(timestamp: real) returns (bpm: Option<real>)
      requires Valid()
      modifies this
      ensures Valid() && history == old(history) + [timestamp] && minTaps == old(minTaps)
      ensures bpm == match TapTempo(Stored(history, maxTaps, resetTimeout), minTaps)
                     case None => None
                     case Some(exact) => Some(Quantize(exact, quantizeStep))
    {
      hide Sum, PositiveGaps;
      if |tapTimes| > 0 && timestamp - tapTimes[|tapTimes| - 1] > resetTimeout {
        tapTimes := [];
      }
      tapTimes := tapTimes + [timestamp];
      tapTimes := LastUpTo(tapTimes, maxTaps);
      history := history + [timestamp];
      assert history[..|history| - 1] == old(history);
      if |tapTimes| < minTaps {
        return None;
      }
      var intervals := PositiveGaps(tapTimes);
      if intervals == [] {
        return None;
      }
      SumIsPositive(intervals);
      bpm := Some(Quantize(60.0 / (Sum(intervals) / |intervals| as real), quantizeStep));
    }

    method Clear()
      requires Valid()
      modifies this
      ensures Valid() && history == [] && minTaps == old(minTaps)
    {
      tapTimes, history := [], [];
    }
  }

  lemma {:induction false} SumIsPositive(xs: seq<real>)
    requires xs != [] && forall x :: x in xs ==> x > 0.0
    ensures Sum(xs) > 0.0 && Sum(xs) / |xs| as real > 0.0
  {
    if |xs| > 1 {
      var front := xs[..|xs| - 1];
      assert forall x :: x in front ==> x in xs;
      SumIsPositive(front);
    }
    assert xs[|xs| - 1] in xs;
    assert Sum(xs) > 0.0;
    PositiveQuotient(Sum(xs), |xs| as real);
  }

  lemma PositiveQuotient(sum: real, count: real)
    requires sum > 0.0 && count > 0.0
    ensures sum / count > 0.0
  {
    var mean := sum / count;
    assert mean * count == sum;
    Cancel(mean, 0.0, count);
  }

  /** A tap gives a tempo exactly when the window of the current run has enough
      taps and they did not all come at once; it is never slower than one beat in
      the reset time. */
  lemma TapTempoIffEnoughTaps(history: seq<real>, max: nat, timeout: real, minTaps: int) returns (run: nat)
    requires history != [] && NonDecreasing(history)
    ensures IsCurrentRun(history, timeout, run)
    ensures var window := Suffix(history, WindowLength(run, max));
            var tempo := TapTempo(Stored(history, max, timeout), minTaps);
            && window == Stored(history, max, timeout) != []
            && (tempo.Some? <==> WindowLength(run, max) >= minTaps && window[0] < window[|window| - 1])
            && (tempo.Some? ==> timeout > 0.0 && tempo.value >= BeatsPerMinute(timeout))
  {
    hide Stored, MeanGap, IsCurrentRun;
    run := StoredIsEndOfRun(history, max, timeout);
    RunIsInside(history, timeout, run);
    MeanIsSpanByCount(history, max, timeout);
    var window := Stored(history, max, timeout);
    assert window[0] <= window[|window| - 1] by {
      WindowOfRun(history, timeout, run, WindowLength(run, max));
      FirstIsLeast(window);
    }
    if MeanGap(window).Some? {
      ShorterIsFaster(MeanGap(window).value, timeout);
    }
  }

  /** The tempo of a window: as many beats as it has forward steps in its span. */
  lemma TempoIsStepsBySpan(history: seq<real>, max: nat, timeout: real, minTaps: int)
    requires history != [] && NonDecreasing(history)
    ensures var window, tempo := Stored(history, max, timeout), TapTempo(Stored(history, max, timeout), minTaps);
            && window != []
            && (tempo.Some? ==>
                  tempo.value * (window[|window| - 1] - window[0]) == 60.0 * |ForwardSteps(window)| as real)
  {
    hide Stored, PositiveGaps, MeanGap, ForwardSteps;
    MeanIsSpanByCount(history, max, timeout);
    var window := Stored(history, max, timeout);
    OneGapPerStep(window);
    if MeanGap(window).Some? {
      MeanHasGaps(window);
      BeatsInSpan(window[|window| - 1] - window[0], |PositiveGaps(window)|);
    }
  }

  lemma BeatsInSpan(span: real, count: nat)
    requires count > 0 && span / count as real > 0.0
    ensures 60.0 / (span / count as real) * span == 60.0 * count as real
  {
    var mean := span / count as real;
    assert mean * count as real == span;
    assert 60.0 / mean * mean == 60.0;
    assert 60.0 / mean * (mean * count as real) == 60.0 / mean * mean * count as real;
  }

  /** A configured minimum above the five taps that are kept can never be met:
      tapping then never sets a tempo. */
  lemma TooManyTapsWanted(history: seq<real>, max: nat, timeout: real, minTaps: int)
    requires max > 0 && minTaps > max
    ensures TapTempo(Stored(history, max, timeout), minTaps) == None
  {
    hide Stored, MeanGap;
    var n := StoredIsEndOfRun(history, max, timeout);
  }

  // ---- MIDI clock ----

  const TICKS_PER_QUARTER := 24.0

  /** The estimate of the latest tick of the current run that allowed one. */
  function ClockEstimate(history: seq<real>, smoothing: nat, timeout: real): Option<real> {
    if history == [] then None
    else
      var front := history[..|history| - 1];
      var window := Stored(history, smoothing, timeout);
      var paused := front != [] && history[|history| - 1] - front[|front| - 1] > timeout;
      var before := if paused then None else ClockEstimate(front, smoothing, timeout);
      var mean := MeanGap(window);
      if mean.None? || mean.value <= 0.0 then before else Some(60.0 / (mean.value * TICKS_PER_QUARTER))
  }

  class ClockBpmTracker {
    const smoothingTicks: nat
    const timeoutSeconds: real
    var tickTimes: seq<real>
    var lastBpm: Option<real>
    ghost var history: seq<real>

    ghost predicate Valid()
      reads this
    {
      && smoothingTicks >= 2
      && tickTimes == Stored(history, smoothingTicks, timeoutSeconds)
      && lastBpm == ClockEstimate(history, smoothingTicks, timeoutSeconds)
    }

    constructor (smoothingTicks: nat := 48, timeoutSeconds: real := 2.0)
      requires smoothingTicks >= 2
      ensures Valid() && history == []
      ensures this.smoothingTicks == smoothingTicks && this.timeoutSeconds == timeoutSeconds
    {
      this.smoothingTicks, this.timeoutSeconds := smoothingTicks, timeoutSeconds;
      tickTimes, lastBpm, history := [], None, [];
    }

    method Tick(timestamp: real) returns (bpm: Option<real>)
      requires Valid()
      modifies this
      ensures Valid() && history == old(history) + [timestamp]
      ensures bpm.Some? ==> bpm == lastBpm
      ensures bpm.Some? <==> MeanGap(tickTimes).Some?
    {
      hide Sum, PositiveGaps, Stored, ClockEstimate;
      StoredEndsWithHistory(history, smoothingTicks, timeoutSeconds);
      OneMoreTick(history, timestamp, smoothingTicks, timeoutSeconds);
      if |tickTimes| > 0 && timestamp - tickTimes[|tickTimes| - 1] > timeoutSeconds {
        tickTimes, lastBpm := [], None;
      }
      tickTimes := LastUpTo(tickTimes + [timestamp], smoothingTicks);
      history := history + [timestamp];
      if |tickTimes| < 2 {
        NoGaps(tickTimes);
        return None;
      }
      var intervals := PositiveGaps(tickTimes);
      if intervals == [] {
        return None;
      }
      SumIsPositive(intervals);
      var secondsPerTick := Sum(intervals) / |intervals| as real;
      lastBpm := Some(60.0 / (secondsPerTick * TICKS_PER_QUARTER));
      bpm := lastBpm;
    }
  }

  lemma OneMoreTick(history: seq<real>, t: real, smoothing: nat, timeout: real)
    ensures var window := Record(Stored(history, smoothing, timeout), t, smoothing, timeout);
            var paused := history != [] && t - history[|history| - 1] > timeout;
            var before := if paused then None else ClockEstimate(history, smoothing, timeout);
            && Stored(history + [t], smoothing, timeout) == window
            && ClockEstimate(history + [t], smoothing, timeout) ==
               if MeanGap(window).None? || MeanGap(window).value <= 0.0 then before
               else Some(60.0 / (MeanGap(window).value * TICKS_PER_QUARTER))
  {
    hide MeanGap, Record;
    assert (history + [t])[..|history|] == history;
  }

  lemma NoGaps(times: seq<real>)
    requires |times| < 2
    ensures PositiveGaps(times) == []
  {
  }

  lemma StoredEndsWithHistory(history: seq<real>, max: nat, timeout: real)
    ensures history == [] <==> Stored(history, max, timeout) == []
    ensures history != [] ==> var window := Stored(history, max, timeout);
              window[|window| - 1] == history[|history| - 1]
  {
    hide Stored;
    var n := StoredIsEndOfRun(history, max, timeout);
  }

  /** The clock estimate is the number of forward steps in the window of the
      current run by its span, and never below one quarter note in 24 pauses. */
  lemma ClockEstimateIsWindowed(history: seq<real>, smoothing: nat, timeout: real)
    requires history != [] && NonDecreasing(history)
    requires MeanGap(Stored(history, smoothing, timeout)).Some?
    ensures var window, bpm := Stored(history, smoothing, timeout), ClockEstimate(history, smoothing, timeout);
            && bpm.Some? && window[|window| - 1] > window[0]
            && bpm.value == 60.0 * |ForwardSteps(window)| as real / (24.0 * (window[|window| - 1] - window[0]))
            && timeout > 0.0 && bpm.value >= 60.0 / (24.0 * timeout)
  {
    hide Stored, PositiveGaps, Sum, MeanGap;
    MeanIsSpanByCount(history, smoothing, timeout);
    var window := Stored(history, smoothing, timeout);
    var span, count := window[|window| - 1] - window[0], |PositiveGaps(window)|;
    OneGapPerStep(window);
    assert count > 0 by { MeanHasGaps(window); }
    SpanIsPositive(span, count as real);
    RateOf(span, count, timeout);
  }

  lemma MeanHasGaps(window: seq<real>)
    requires MeanGap(window).Some?
    ensures PositiveGaps(window) != []
  {
  }

  lemma SpanIsPositive(span: real, count: real)
    requires count > 0.0 && span / count > 0.0
    ensures span > 0.0
  {
    var mean := span / count;
    assert span == mean * count;
    Cancel(mean, 0.0, count);
  }

  lemma RateOf(span: real, count: nat, timeout: real)
    requires count > 0 && span > 0.0 && 0.0 < span / count as real <= timeout
    ensures 60.0 / (span / count as real * TICKS_PER_QUARTER) == 60.0 * count as real / (TICKS_PER_QUARTER * span)
    ensures 60.0 / (span / count as real * TICKS_PER_QUARTER) >= 60.0 / (TICKS_PER_QUARTER * timeout)
  {
    var mean := span / count as real;
    assert mean * count as real == span;
    var x := 60.0 / (mean * TICKS_PER_QUARTER);
    assert x * (mean * TICKS_PER_QUARTER) == 60.0;
    assert x * (TICKS_PER_QUARTER * span) == x * (mean * TICKS_PER_QUARTER) * count as real;
    ShorterIsFaster(mean * TICKS_PER_QUARTER, TICKS_PER_QUARTER * timeout);
  }
}
