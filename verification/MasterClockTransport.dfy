/** The transport thread of the master clock, interleaved with tempo commands and
    reconfigurations from the event loop. One state is one run of the thread. */
module MasterClockTransport {
  import opened Common

  const TICKS_PER_QUARTER: real := 24.0
  const RESYNC_AFTER: real := 8.0
  const BPM_TOLERANCE: real := 0.000001

  function SecondsPerTick(bpm: real): (s: real)
    requires bpm > 0.0
    ensures s > 0.0
  {
    60.0 / (bpm * TICKS_PER_QUARTER)
  }

  /** A beat is 24 ticks, and a minute as many beats as the tempo says. */
  lemma TicksFillMinute(bpm: real)
    requires bpm > 0.0
    ensures bpm * 24.0 * SecondsPerTick(bpm) == 60.0
  {
    var ticks := bpm * TICKS_PER_QUARTER;
    assert 60.0 / ticks * ticks == 60.0;
  }

  /** `waiting`: the thread has computed a deadline and has not emitted yet;
      `wake` is the earliest time at which it can. `reading` is the last time
      anybody read the clock. `intervals`, `emitted` and `slip` tell the past:
      the interval of every turn, the time of every tick, and by how much
      resynchronising has moved the deadline. */
  datatype Clock = Clock(
    bpm: real, bpmMin: real, bpmMax: real,
    nextTickAt: real, positionTicks: nat, waiting: bool, wake: real,
    reading: real, intervals: seq<real>, emitted: seq<real>, slip: real)

  datatype Event =
    | SetBpm(bpm: real)
    | ReplaceConfig(bpmMin: real, bpmMax: real) // `configure` up to its await
    | ApplyConfig(bpm: real) // and after it
    | BeginTurn(now: real, again: real) // one pass of the loop up to the sleep
    | Emit(at: real)

  function SetTempo(current: real, bpm: real, low: real, high: real): real {
    var wanted := Clamp(bpm, low, high);
    if Distance(current, wanted) <= BPM_TOLERANCE then current else wanted
  }

  /** All configurations keep their tempo between the slowest and the fastest;
      the clock never runs backwards and `sleep` never returns early. */
  predicate Allowed(c: Clock, e: Event, slowest: real, fastest: real) {
    match e
    case SetBpm(_) => true
    case ReplaceConfig(low, high) => slowest <= low < high <= fastest
    case ApplyConfig(bpm) => slowest <= bpm <= fastest
    case BeginTurn(now, again) => !c.waiting && c.reading <= now <= again
    case Emit(at) => c.waiting && c.wake <= at && c.reading <= at
  }

  function Turn(c: Clock, now: real, again: real): Clock
    requires c.bpm > 0.0
  {
    var interval := SecondsPerTick(c.bpm);
    var due := c.nextTickAt + interval;
    var delay := due - now;
    var turned := c.(waiting := true, intervals := c.intervals + [interval]);
    if delay > 0.0 then turned.(nextTickAt := due, wake := due, reading := now)
    else if delay < -(interval * RESYNC_AFTER) then
      turned.(nextTickAt := again + interval, wake := again, reading := again, slip := c.slip + (again + interval - due))
    else turned.(nextTickAt := due, wake := now, reading := now)
  }

  function Next(c: Clock, e: Event): Clock
    requires c.bpm > 0.0
  {
    match e
    case SetBpm(bpm) => c.(bpm := SetTempo(c.bpm, bpm, c.bpmMin, c.bpmMax))
    case ReplaceConfig(low, high) => c.(bpmMin := low, bpmMax := high)
    case ApplyConfig(bpm) => c.(bpm := bpm)
    case BeginTurn(now, again) => Turn(c, now, again)
    case Emit(at) => c.(waiting := false, reading := at, emitted := c.emitted + [at], positionTicks := c.positionTicks + 1)
  }

  /** The thread has just read its first deadline. */
  predicate Started(c: Clock, start: real, slowest: real, fastest: real) {
    && 0.0 < slowest <= c.bpmMin < c.bpmMax <= fastest && slowest <= c.bpm <= fastest
    && c.nextTickAt == start == c.reading && !c.waiting && c.intervals == [] && c.emitted == [] && c.slip == 0.0
  }

  /** A run: the states before and after each event. */
  predicate IsRun(states: seq<Clock>, events: seq<Event>, start: real, slowest: real, fastest: real) {
    && |states| == |events| + 1 && Started(states[0], start, slowest, fastest)
    && forall i :: 0 <= i < |events| ==>
         states[i].bpm > 0.0 && Allowed(states[i], events[i], slowest, fastest) && states[i + 1] == Next(states[i], events[i])
  }

  // ---- What every state of every run satisfies ----

  function Sum(xs: seq<real>): real {
    if xs == [] then 0.0 else Sum(xs[..|xs| - 1]) + xs[|xs| - 1]
  }

  predicate TempoInv(c: Clock, slowest: real, fastest: real) {
    && 0.0 < slowest <= c.bpmMin < c.bpmMax <= fastest && slowest <= c.bpm <= fastest
    && forall x :: x in c.intervals ==> SecondsPerTick(fastest) <= x <= SecondsPerTick(slowest)
  }

  /** The schedule: tick n is due when the first n intervals have passed. */
  predicate ScheduleInv(c: Clock, start: real) {
    && c.slip >= 0.0
    && c.nextTickAt == start + Sum(c.intervals) + c.slip
    && |c.intervals| == |c.emitted| + (if c.waiting then 1 else 0)
    && (forall n :: 0 <= n < |c.emitted| ==> c.emitted[n] >= start + Sum(c.intervals[..n + 1]))
    && (forall n :: 0 <= n < |c.emitted| ==> c.emitted[n] <= c.reading)
    && (forall m, n :: 0 <= m < n < |c.emitted| ==> c.emitted[m] <= c.emitted[n])
    && (c.waiting ==> c.wake >= start + Sum(c.intervals))
  }

  /** The deadline never lags the last reading by more than eight intervals. */
  predicate LagInv(c: Clock) {
    c.waiting ==> c.intervals != [] && c.reading - c.nextTickAt <= RESYNC_AFTER * c.intervals[|c.intervals| - 1]
  }

  lemma FasterIsShorter(slow: real, fast: real)
    requires 0.0 < slow <= fast
    ensures SecondsPerTick(fast) <= SecondsPerTick(slow)
  {
    Reciprocal(slow * TICKS_PER_QUARTER, fast * TICKS_PER_QUARTER);
  }

  lemma Reciprocal(a: real, b: real)
    requires 0.0 < a <= b
    ensures 60.0 / b <= 60.0 / a
  {
    var x, y := 60.0 / a, 60.0 / b;
    assert x * a == 60.0 && y * b == 60.0 && y > 0.0;
    Multiply(a, b, y);
    if y > x {
      MultiplyStrictly(x, y, a);
    }
  }

  lemma Multiply(a: real, b: real, y: real)
    requires a <= b && y >= 0.0
    ensures y * a <= y * b
  {
  }

  lemma MultiplyStrictly(x: real, y: real, a: real)
    requires x < y && a > 0.0
    ensures x * a < y * a
  {
  }

  lemma TempoStep(c: Clock, e: Event, slowest: real, fastest: real)
    requires TempoInv(c, slowest, fastest) && Allowed(c, e, slowest, fastest)
    ensures TempoInv(Next(c, e), slowest, fastest)
  {
    hide SecondsPerTick;
    FasterIsShorter(slowest, c.bpm);
    FasterIsShorter(c.bpm, fastest);
  }

  lemma SumSnoc(xs: seq<real>, x: real)
    ensures Sum(xs + [x]) == Sum(xs) + x
  {
    assert (xs + [x])[..|xs|] == xs;
  }

  lemma EarlierPrefix(xs: seq<real>, x: real)
    ensures forall n :: 0 <= n <= |xs| ==> (xs + [x])[..n] == xs[..n]
  {
  }

  lemma ScheduleTurn(c: Clock, now: real, again: real, start: real)
    requires c.bpm > 0.0 && ScheduleInv(c, start) && !c.waiting && c.reading <= now <= again
    ensures ScheduleInv(Turn(c, now, again), start)
  {
    hide SecondsPerTick, Sum;
    SumSnoc(c.intervals, SecondsPerTick(c.bpm));
    EarlierPrefix(c.intervals, SecondsPerTick(c.bpm));
    var after := Turn(c, now, again);
    forall n | 0 <= n < |c.emitted|
      ensures after.emitted[n] >= start + Sum(after.intervals[..n + 1])
    {
      assert after.intervals[..n + 1] == c.intervals[..n + 1];
    }
  }

  lemma ScheduleEmit(c: Clock, at: real, start: real)
    requires c.bpm > 0.0 && ScheduleInv(c, start) && c.waiting && c.wake <= at && c.reading <= at
    ensures ScheduleInv(Next(c, Emit(at)), start)
  {
    hide Sum;
    assert c.intervals[..|c.emitted| + 1] == c.intervals;
  }

  lemma StepKeepsInv(c: Clock, e: Event, start: real, slowest: real, fastest: real)
    requires TempoInv(c, slowest, fastest) && ScheduleInv(c, start) && LagInv(c) && Allowed(c, e, slowest, fastest)
    ensures var after := Next(c, e); TempoInv(after, slowest, fastest) && ScheduleInv(after, start) && LagInv(after)
  {
    hide SecondsPerTick, Sum, TempoInv, ScheduleInv;
    assert c.bpm > 0.0 by { PositiveTempo(c, slowest, fastest); }
    TempoStep(c, e, slowest, fastest);
    match e
    case BeginTurn(now, again) => ScheduleTurn(c, now, again, start);
    case Emit(at) => ScheduleEmit(c, at, start);
    case _ => SameSchedule(c, Next(c, e), start);
  }

  lemma PositiveTempo(c: Clock, slowest: real, fastest: real)
    requires TempoInv(c, slowest, fastest)
    ensures c.bpm > 0.0
  {
  }

  lemma SameSchedule(c: Clock, after: Clock, start: real)
    requires ScheduleInv(c, start)
    requires after == c.(bpm := after.bpm, bpmMin := after.bpmMin, bpmMax := after.bpmMax)
    ensures ScheduleInv(after, start)
  {
  }

  lemma {:induction false} RunKeepsSchedule(states: seq<Clock>, events: seq<Event>, start: real, slowest: real, fastest: real)
    requires IsRun(states, events, start, slowest, fastest)
    ensures var c := states[|events|]; TempoInv(c, slowest, fastest) && ScheduleInv(c, start) && LagInv(c)
    decreases |events|
  {
    hide SecondsPerTick, Next, Allowed, ScheduleInv, TempoInv, LagInv;
    if events == [] {
      StartedInv(states[0], start, slowest, fastest);
    } else {
      var n := |events| - 1;
      RunKeepsSchedule(states[..n + 1], events[..n], start, slowest, fastest);
      StepKeepsInv(states[n], events[n], start, slowest, fastest);
    }
  }

  lemma StartedInv(c: Clock, start: real, slowest: real, fastest: real)
    requires Started(c, start, slowest, fastest)
    ensures TempoInv(c, slowest, fastest) && ScheduleInv(c, start) && LagInv(c)
  {
  }

  // ---- The main results ----

  /** The clock never runs fast: no tick before its place in the schedule that
      the tempo of each turn makes, whatever the commands and however often the
      thread had to resynchronise. And it never falls more than eight intervals
      behind. */
  lemma NeverEarly(states: seq<Clock>, events: seq<Event>, start: real, slowest: real, fastest: real, n: nat)
    requires IsRun(states, events, start, slowest, fastest) && n < |states[|events|].emitted|
    ensures var c := states[|events|];
            && n < |c.intervals| && c.emitted[n] >= start + Sum(c.intervals[..n + 1])
            && (forall x :: x in c.intervals ==> SecondsPerTick(fastest) <= x <= SecondsPerTick(slowest))
            && (c.waiting ==> c.reading - c.nextTickAt <= 8.0 * c.intervals[|c.intervals| - 1])
  {
    hide SecondsPerTick, Sum, IsRun;
    RunKeepsSchedule(states, events, start, slowest, fastest);
  }

  /** Nothing is ever lost to rounding or drift: the deadline is the start plus
      all intervals, plus what resynchronising added. */
  lemma DeadlineIsExact(states: seq<Clock>, events: seq<Event>, start: real, slowest: real, fastest: real)
    requires IsRun(states, events, start, slowest, fastest)
    ensures var c := states[|events|];
            c.nextTickAt == start + Sum(c.intervals) + c.slip && c.slip >= 0.0
  {
    hide SecondsPerTick, Sum, IsRun;
    RunKeepsSchedule(states, events, start, slowest, fastest);
  }

  /** A turn moves the schedule exactly when it begins more than nine intervals
      after the previous deadline. */
  lemma ResyncsIffTooLate(c: Clock, now: real, again: real)
    requires c.bpm > 0.0 && now <= again
    ensures Turn(c, now, again).slip != c.slip <==> now - c.nextTickAt > 9.0 * SecondsPerTick(c.bpm)
    ensures Turn(c, now, again).nextTickAt == c.nextTickAt + SecondsPerTick(c.bpm) + (Turn(c, now, again).slip - c.slip)
    ensures Turn(c, now, again).slip != c.slip ==> Turn(c, now, again).nextTickAt == again + SecondsPerTick(c.bpm)
  {
  }

  lemma SliceIn(xs: seq<real>, n: nat)
    requires n <= |xs|
    ensures forall x :: x in xs[..n] ==> x in xs
  {
  }

  lemma {:induction false} SumAtLeast(xs: seq<real>, least: real)
    requires forall x :: x in xs ==> x >= least
    ensures Sum(xs) >= least * |xs| as real
  {
    if xs != [] {
      SliceIn(xs, |xs| - 1);
      SumAtLeast(xs[..|xs| - 1], least);
      assert xs[|xs| - 1] in xs;
      assert least * |xs| as real == least * (|xs| - 1) as real + least;
    }
  }

  /** By any time T after the last tick the clock has ticked at most at the
      fastest tempo: n ticks take n quarter-twentyfourths of a beat. */
  lemma TicksAreBounded(states: seq<Clock>, events: seq<Event>, start: real, slowest: real, fastest: real, time: real)
    requires IsRun(states, events, start, slowest, fastest)
    requires forall t :: t in states[|events|].emitted ==> t <= time
    requires time >= start
    ensures |states[|events|].emitted| as real <= (time - start) * fastest * 24.0 / 60.0
  {
    hide IsRun, Sum, SecondsPerTick;
    assert |states| == |events| + 1 && slowest > 0.0 by { RunIsLong(states, events, start, slowest, fastest); }
    RunKeepsSchedule(states, events, start, slowest, fastest);
    var c := states[|events|];
    var n := |c.emitted|;
    var least := SecondsPerTick(fastest);
    if n > 0 {
      assert c.emitted[n - 1] in c.emitted;
      SliceIn(c.intervals, n);
      SumAtLeast(c.intervals[..n], least);
      assert time - start >= least * n as real;
    }
    TicksFit(n as real, time - start, fastest);
  }

  lemma RunIsLong(states: seq<Clock>, events: seq<Event>, start: real, slowest: real, fastest: real)
    requires IsRun(states, events, start, slowest, fastest)
    ensures |states| == |events| + 1 && slowest > 0.0
  {
  }

  lemma TicksFit(n: real, elapsed: real, fastest: real)
    requires fastest > 0.0 && n >= 0.0 && elapsed >= 0.0 && (n > 0.0 ==> elapsed >= SecondsPerTick(fastest) * n)
    ensures n <= elapsed * fastest * TICKS_PER_QUARTER / 60.0
  {
    var rate := fastest * TICKS_PER_QUARTER;
    assert rate > 0.0;
    if n > 0.0 {
      assert SecondsPerTick(fastest) * rate == 60.0;
      assert elapsed * rate >= SecondsPerTick(fastest) * n * rate;
      assert SecondsPerTick(fastest) * n * rate == 60.0 * n;
    } else {
      assert elapsed * rate >= 0.0;
    }
    assert elapsed * fastest * TICKS_PER_QUARTER == elapsed * rate;
  }

  // ---- The object ----

  /** The part of the master clock that keeps time. The transport thread's local
      `next_tick_at` is the field of that name. */
  class MasterClock {
    var bpm: real
    var bpmMin: real
    var bpmMax: real
    var nextTickAt: real
    var positionTicks: nat
    ghost var waiting: bool
    ghost var wake: real
    ghost var reading: real
    ghost var intervals: seq<real>
    ghost var emitted: seq<real>
    ghost var slip: real

    ghost function State(): Clock
      reads this
    {
      Clock(bpm, bpmMin, bpmMax, nextTickAt, positionTicks, waiting, wake, reading, intervals, emitted, slip)
    }

    /** A validated configuration, and the start of the transport thread. */
    constructor (bpm: real, bpmMin: real, bpmMax: real, start: real)
      requires 0.0 < bpmMin < bpmMax && bpmMin <= bpm <= bpmMax
      ensures State() == Clock(bpm, bpmMin, bpmMax, start, 0, false, start, start, [], [], 0.0)
      ensures Started(State(), start, bpmMin, bpmMax)
    {
      this.bpm, this.bpmMin, this.bpmMax, nextTickAt, positionTicks := bpm, bpmMin, bpmMax, start, 0;
      waiting, wake, reading, intervals, emitted, slip := false, start, start, [], [], 0.0;
    }

    method SetBpm(requested: real)
      requires bpm > 0.0
      modifies `bpm
      ensures State() == Next(old(State()), Event.SetBpm(requested))
      ensures var wanted := Clamp(requested, bpmMin, bpmMax);
              -0.000001 <= bpm - wanted <= 0.000001 && (bpm == old(bpm) || bpm == wanted)
    {
      var wanted := requested;
      if !(bpmMin <= requested <= bpmMax) {
        wanted := Clamp(requested, bpmMin, bpmMax);
      }
      if Distance(bpm, wanted) <= BPM_TOLERANCE {
        return;
      }
      bpm := wanted;
    }

    method ReplaceConfig(low: real, high: real)
      requires bpm > 0.0
      modifies `bpmMin, `bpmMax
      ensures State() == Next(old(State()), Event.ReplaceConfig(low, high))
    {
      bpmMin, bpmMax := low, high;
    }

    method ApplyConfig(configured: real)
      requires bpm > 0.0
      modifies `bpm
      ensures State() == Next(old(State()), Event.ApplyConfig(configured))
    {
      bpm := configured;
    }

    /** One pass of the transport loop up to its sleep: how long to sleep. */
    method BeginTurn(now: real, again: real) returns (sleep: real)
      requires bpm > 0.0
      modifies this
      ensures State() == Next(old(State()), Event.BeginTurn(now, again))
      ensures var due := old(nextTickAt) + SecondsPerTick(bpm);
              sleep == if due > now then due - now else 0.0
    {
      var interval := SecondsPerTick(bpm);
      nextTickAt := nextTickAt + interval;
      ghost var due := nextTickAt;
      var delay := nextTickAt - now;
      sleep := 0.0;
      reading, wake := now, now;
      if delay > 0.0 {
        sleep := delay;
        wake := due;
      } else if delay < -(interval * RESYNC_AFTER) {
        nextTickAt := again + interval;
        reading, wake, slip := again, again, slip + (nextTickAt - due);
      }
      waiting, intervals := true, intervals + [interval];
    }

    method EmitFrame(at: real)
      requires bpm > 0.0
      modifies this
      ensures State() == Next(old(State()), Event.Emit(at))
    {
      positionTicks := positionTicks + 1;
      waiting, reading, emitted := false, at, emitted + [at];
    }
  }
}
