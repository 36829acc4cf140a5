/** Debouncing of polled GPIO inputs. */
module GpioDebounce {

  /** One reading of a pin as a logical value. */
  datatype Poll = Poll(at: real, value: bool)

  datatype DebounceState = DebounceState(stable: bool, candidate: bool, candidateSince: real)

  /** What the initial reading leaves. */
  function Begin(p: Poll): DebounceState {
    DebounceState(p.value, p.value, p.at)
  }

  predicate Publishes(d: DebounceState, p: Poll, bounce: real) {
    p.value == d.candidate && p.value != d.stable && p.at - d.candidateSince >= bounce
  }

  function Step(d: DebounceState, p: Poll, bounce: real): DebounceState {
    if p.value != d.candidate then d.(candidate := p.value, candidateSince := p.at)
    else if Publishes(d, p, bounce) then d.(stable := p.value)
    else d
  }

  function StateAfter(h: seq<Poll>, bounce: real): DebounceState
    requires h != []
  {
    if |h| == 1 then Begin(h[0]) else Step(StateAfter(h[..|h| - 1], bounce), h[|h| - 1], bounce)
  }

  predicate PublishesAt(h: seq<Poll>, bounce: real, k: nat)
    requires k < |h|
  {
    k == 0 || Publishes(StateAfter(h[..k], bounce), h[k], bounce)
  }

  /** The values published for a pin, the initial one first. */
  function Published(h: seq<Poll>, bounce: real): (values: seq<bool>)
    requires h != []
    ensures values != []
  {
    if |h| == 1 then [h[0].value]
    else
      var before := Published(h[..|h| - 1], bounce);
      if PublishesAt(h, bounce, |h| - 1) then before + [h[|h| - 1].value] else before
  }

  // ---- The specification over the whole history ----

  /** All readings from s to k agree. */
  predicate Constant(h: seq<Poll>, s: int, k: int) {
    0 <= s <= k < |h| && forall i :: s <= i <= k ==> h[i].value == h[k].value
  }

  /** The run of equal readings that ends with the k-th starts with the s-th. */
  predicate IsRun(h: seq<Poll>, s: int, k: int) {
    Constant(h, s, k) && (s == 0 || h[s - 1].value != h[k].value)
  }

  /** The k-th reading is not the first of its run, and the run has lasted long
      enough. */
  ghost predicate Settles(h: seq<Poll>, bounce: real, k: int) {
    exists s :: s < k && IsRun(h, s, k) && h[k].at - h[s].at >= bounce
  }

  ghost predicate IsLastSettled(h: seq<Poll>, bounce: real, k: int) {
    Settles(h, bounce, k) && forall j :: k < j < |h| ==> !Settles(h, bounce, j)
  }

  predicate ClockIsMonotonic(h: seq<Poll>) {
    forall i, j :: 0 <= i < j < |h| ==> h[i].at <= h[j].at
  }

  // ---- The state machine meets it ----

  lemma RunsAreUnique(h: seq<Poll>, s: int, t: int, k: int)
    requires IsRun(h, s, k) && IsRun(h, t, k)
    ensures s == t
  {
  }

  lemma RunOfPrefix(h: seq<Poll>, n: int, s: int, k: int)
    requires 0 <= k < n <= |h|
    ensures IsRun(h[..n], s, k) <==> IsRun(h, s, k)
  {
  }

  lemma SettlesInPrefix(h: seq<Poll>, n: int, bounce: real, k: int)
    requires 0 <= k < n <= |h|
    ensures Settles(h[..n], bounce, k) <==> Settles(h, bounce, k)
  {
    forall s
      ensures IsRun(h[..n], s, k) <==> IsRun(h, s, k)
    {
      RunOfPrefix(h, n, s, k);
    }
    if Settles(h[..n], bounce, k) {
      var s :| s < k && IsRun(h[..n], s, k) && h[..n][k].at - h[..n][s].at >= bounce;
      assert IsRun(h, s, k);
    }
    if Settles(h, bounce, k) {
      var s :| s < k && IsRun(h, s, k) && h[k].at - h[s].at >= bounce;
      assert IsRun(h[..n], s, k);
    }
  }

  /** The candidate is the value of the current run, dated from its first poll. */
  lemma {:induction false} CandidateIsCurrentRun(h: seq<Poll>, bounce: real) returns (s: nat)
    requires h != []
    ensures s < |h| && IsRun(h, s, |h| - 1)
    ensures StateAfter(h, bounce).candidate == h[|h| - 1].value
    ensures StateAfter(h, bounce).candidateSince == h[s].at
    decreases |h|
  {
    if |h| == 1 {
      s := 0;
    } else {
      var front := h[..|h| - 1];
      s := CandidateIsCurrentRun(front, bounce);
      RunOfPrefix(h, |front|, s, |front| - 1);
      if h[|h| - 1].value != h[|h| - 2].value {
        s := |h| - 1;
      }
    }
  }

  /** A poll settles its value exactly when the machine's guard holds. */
  lemma SettlesIsGuard(h: seq<Poll>, bounce: real)
    requires |h| > 1
    ensures var d, p := StateAfter(h[..|h| - 1], bounce), h[|h| - 1];
            Settles(h, bounce, |h| - 1) <==> p.value == d.candidate && p.at - d.candidateSince >= bounce
  {
    hide StateAfter;
    var front, k := h[..|h| - 1], |h| - 1;
    var s := CandidateIsCurrentRun(front, bounce);
    RunOfPrefix(h, k, s, k - 1);
    if h[k].value == h[k - 1].value {
      assert IsRun(h, s, k);
      forall t | IsRun(h, t, k)
        ensures t == s
      {
        RunsAreUnique(h, s, t, k);
      }
    } else {
      assert IsRun(h, k, k);
      forall t | IsRun(h, t, k)
        ensures t == k
      {
        RunsAreUnique(h, k, t, k);
      }
    }
  }

  /** The stable value is that of the latest poll that settled, or the initial
      one when none did. */
  lemma {:induction false} StableIsLastSettled(h: seq<Poll>, bounce: real)
    requires h != []
    ensures || (exists k :: IsLastSettled(h, bounce, k) && StateAfter(h, bounce).stable == h[k].value)
            || ((forall k :: !Settles(h, bounce, k)) && StateAfter(h, bounce).stable == h[0].value)
    decreases |h|
  {
    hide IsRun, Settles;
    var last := |h| - 1;
    assert forall k :: Settles(h, bounce, k) ==> 0 < k <= last by { SettlesInside(h, bounce); }
    if last > 0 {
      var front := h[..last];
      StableIsLastSettled(front, bounce);
      SettlesIsGuard(h, bounce);
      if Settles(h, bounce, last) {
        assert IsLastSettled(h, bounce, last);
      } else {
        forall k | 0 <= k < last
          ensures Settles(front, bounce, k) <==> Settles(h, bounce, k)
        {
          SettlesInPrefix(h, last, bounce, k);
        }
        SettlesInside(front, bounce);
        if k :| IsLastSettled(front, bounce, k) && StateAfter(front, bounce).stable == front[k].value {
          assert IsLastSettled(h, bounce, k);
        }
      }
    }
  }

  lemma SettlesInside(h: seq<Poll>, bounce: real)
    ensures forall k :: Settles(h, bounce, k) ==> 0 < k < |h|
  {
  }

  /** On a clock that never runs backwards, any stretch of two or more polls that
      read the same value over the bounce time leaves the input stable at it. */
  lemma LongRunSettles(h: seq<Poll>, bounce: real, s: nat)
    requires ClockIsMonotonic(h) && s < |h| - 1
    requires Constant(h, s, |h| - 1) && h[|h| - 1].at - h[s].at >= bounce
    ensures Settles(h, bounce, |h| - 1)
    ensures StateAfter(h, bounce).stable == h[|h| - 1].value
  {
    hide StateAfter;
    var last := |h| - 1;
    var start := CandidateIsCurrentRun(h, bounce);
    assert start <= s;
    assert h[start].at <= h[s].at;
    StableIsLastSettled(h, bounce);
    assert IsLastSettled(h, bounce, last);
  }

  /** Every publication is backed by an unbroken run of polls with that value that
      lasted at least the bounce time, and it is a change. */
  lemma PublicationIsBacked(h: seq<Poll>, bounce: real, k: nat)
    requires 0 < k < |h| && PublishesAt(h, bounce, k)
    ensures Settles(h, bounce, k)
    ensures StateAfter(h[..k], bounce).stable != h[k].value
    ensures StateAfter(h[..k + 1], bounce).stable == h[k].value
  {
    hide Settles;
    var upto := h[..k + 1];
    assert upto[..k] == h[..k];
    SettlesIsGuard(upto, bounce);
    SettlesInPrefix(h, k + 1, bounce, k);
  }

  predicate Alternates(values: seq<bool>) {
    forall i :: 0 <= i < |values| - 1 ==> values[i] != values[i + 1]
  }

  /** The published values alternate, and the last of them is the stable value. */
  lemma {:induction false} PublishedAlternate(h: seq<Poll>, bounce: real)
    requires h != []
    ensures var values := Published(h, bounce);
            && values[0] == h[0].value
            && values[|values| - 1] == StateAfter(h, bounce).stable
            && Alternates(values)
    decreases |h|
  {
    if |h| > 1 {
      PublishedAlternate(h[..|h| - 1], bounce);
    }
  }

  /** Two publications of one input are at least the bounce time apart. */
  lemma PublicationsAreSpaced(h: seq<Poll>, bounce: real, j: nat, k: nat)
    requires ClockIsMonotonic(h) && j < k < |h|
    requires PublishesAt(h, bounce, j) && PublishesAt(h, bounce, k)
    ensures h[k].at - h[j].at >= bounce
    decreases k
  {
    hide StateAfter;
    PublicationIsBacked(h, bounce, k);
    var s :| s < k && IsRun(h, s, k) && h[k].at - h[s].at >= bounce;
    if s <= j {
      StableFrom(h, bounce, j, k);
    }
  }

  /** After a publication the input stays at its value while the polls read it. */
  lemma {:induction false} StableFrom(h: seq<Poll>, bounce: real, j: nat, k: nat)
    requires j < k < |h| && PublishesAt(h, bounce, j) && Constant(h, j, k)
    ensures StateAfter(h[..k], bounce).stable == h[k].value
    decreases k
  {
    var upto := h[..k];
    assert upto[..k - 1] == h[..k - 1];
    if j < k - 1 {
      assert Constant(h, j, k - 1);
      StableFrom(h, bounce, j, k - 1);
    } else if j > 0 {
      PublicationIsBacked(h, bounce, j);
    }
  }

  // ---- Across reconfigurations ----

  /** The values published after a reconfiguration: its own first reading is not
      among them. */
  function PublishedSince(h: seq<Poll>, bounce: real): seq<bool>
    requires h != []
  {
    Published(h, bounce)[1..]
  }

  /** What was published before a reconfiguration and what is published after it
      alternate exactly when nothing is published after it, or its first reading
      agrees with the value that was published last. */
  lemma ReconfiguredAlternatesIff(stream: seq<bool>, h: seq<Poll>, bounce: real)
    requires stream != [] && Alternates(stream) && h != []
    ensures Alternates(stream + PublishedSince(h, bounce)) <==>
            PublishedSince(h, bounce) == [] || h[0].value == stream[|stream| - 1]
  {
    hide Published, StateAfter;
    PublishedAlternate(h, bounce);
    var values, n := Published(h, bounce), |stream|;
    var all := stream + values[1..];
    if |values| > 1 {
      assert values[0] != values[1];
      assert all[n - 1] == stream[n - 1] && all[n] == values[1];
      if h[0].value == stream[n - 1] {
        forall i | 0 <= i < |all| - 1
          ensures all[i] != all[i + 1]
        {
          if i >= n {
            assert all[i] == values[i - n + 1] && all[i + 1] == values[i - n + 2];
          } else if i < n - 1 {
            assert all[i] == stream[i] && all[i + 1] == stream[i + 1];
          }
        }
      }
    } else {
      assert all == stream;
    }
  }

  /** What a caller can check at the reconfiguration: the published values will
      alternate whatever is polled afterwards if and only if the new first reading
      agrees with the value published last, which is the stable one as long as no
      earlier reconfiguration has changed that silently. */
  lemma ReconfigurationIsHarmlessIff(stream: seq<bool>, first: Poll, bounce: real)
    requires stream != [] && Alternates(stream)
    ensures first.value == stream[|stream| - 1] <==>
            forall h :: h != [] && h[0] == first ==> Alternates(stream + PublishedSince(h, bounce))
  {
    hide PublishedSince, Alternates;
    forall h | h != [] && h[0] == first
      ensures Alternates(stream + PublishedSince(h, bounce)) <==>
              PublishedSince(h, bounce) == [] || first.value == stream[|stream| - 1]
    {
      ReconfiguredAlternatesIff(stream, h, bounce);
    }
    var settling := SettlesElsewhere(first, bounce);
  }

  /** After any first reading the other value can settle. */
  lemma SettlesElsewhere(first: Poll, bounce: real) returns (h: seq<Poll>)
    ensures h != [] && h[0] == first && PublishedSince(h, bounce) == [!first.value]
  {
    var late := first.at + if bounce > 0.0 then bounce else 0.0;
    h := [first, Poll(first.at, !first.value), Poll(late, !first.value)];
    assert h[..2] == [first, Poll(first.at, !first.value)];
    assert h[..2][..1] == h[..1] == [first];
    assert StateAfter(h[..1], bounce) == Begin(first);
    assert StateAfter(h[..2], bounce) == DebounceState(first.value, !first.value, first.at);
    assert PublishesAt(h, bounce, 2) && !PublishesAt(h, bounce, 1);
    assert Published(h[..2], bounce) == [first.value];
    assert Published(h, bounce) == [first.value, !first.value];
  }

  /** A reconfiguration while the input is pressed: the release that follows is
      published a second time in a row. */
  lemma ReleaseIsPublishedTwice(bounce: real)
    ensures var stream := Published([Poll(0.0, false)], bounce);
            exists h :: h != [] && h[0] == Poll(1.0, true) && stream + PublishedSince(h, bounce) == [false, false]
  {
    var h := SettlesElsewhere(Poll(1.0, true), bounce);
    assert Published([Poll(0.0, false)], bounce) == [false];
  }

  // ---- The adapter ----

  datatype GpioInput = GpioInput(pin: int, control: string, activeLow: bool, bounce: real)

  datatype GpioEvent = GpioEvent(pin: int, control: string, value: real, initial: bool)

  function LogicalValue(input: GpioInput, rawHigh: bool): (value: bool)
    ensures value <==> rawHigh != input.activeLow
  {
    if input.activeLow then !rawHigh else rawHigh
  }

  function EventOf(input: GpioInput, value: bool, initial: bool): (e: GpioEvent)
    ensures e.value == 1.0 <==> value
    ensures e.value == 0.0 <==> !value
  {
    GpioEvent(input.pin, input.control, if value then 1.0 else 0.0, initial)
  }

  predicate DistinctPins(inputs: seq<GpioInput>) {
    forall i, j :: 0 <= i < j < |inputs| ==> inputs[i].pin != inputs[j].pin
  }

  predicate Covers(inputs: seq<GpioInput>, pins: set<int>) {
    forall input :: input in inputs ==> input.pin in pins
  }

  function PollOf(input: GpioInput, at: real, levels: map<int, bool>): Poll
    requires input.pin in levels
  {
    Poll(at, LogicalValue(input, levels[input.pin]))
  }

  function StreamOf(streams: map<int, seq<bool>>, pin: int): seq<bool> {
    if pin in streams then streams[pin] else []
  }

  /** All values published so far for each pin. */
  function Streamed(streams: map<int, seq<bool>>, events: seq<GpioEvent>): (after: map<int, seq<bool>>) {
    if events == [] then streams
    else
      var before, last := Streamed(streams, events[..|events| - 1]), events[|events| - 1];
      before[last.pin := StreamOf(before, last.pin) + [last.value == 1.0]]
  }

  lemma StreamedSnoc(streams: map<int, seq<bool>>, events: seq<GpioEvent>, e: GpioEvent)
    ensures var before := Streamed(streams, events);
            Streamed(streams, events + [e]) == before[e.pin := StreamOf(before, e.pin) + [e.value == 1.0]]
  {
    assert (events + [e])[..|events|] == events;
  }

  /** The stream of a pin: what it was when its readers were atOpening, and what the
      polls since have published; the first reading only if it was announced. */
  ghost predicate Streams(stream: seq<bool>, base: seq<bool>, announced: bool, h: seq<Poll>, bounce: real)
    requires h != []
  {
    stream == base + if announced then Published(h, bounce) else PublishedSince(h, bounce)
  }

  lemma StreamGrows(stream: seq<bool>, base: seq<bool>, announced: bool, h: seq<Poll>, p: Poll, bounce: real)
    requires h != [] && Streams(stream, base, announced, h, bounce)
    ensures Streams(if PublishesAt(h + [p], bounce, |h|) then stream + [p.value] else stream, base, announced, h + [p], bounce)
  {
    hide PublishesAt;
    assert (h + [p])[..|h|] == h;
  }

  lemma StreamStarts(base: seq<bool>, p: Poll, bounce: real)
    ensures Streams(base, base, false, [p], bounce) && Streams(base + [p.value], base, true, [p], bounce)
  {
  }

  /** The history of every input's pin grows by its reading. */
  ghost function Polled(histories: map<int, seq<Poll>>, inputs: seq<GpioInput>, at: real, levels: map<int, bool>)
    : (grown: map<int, seq<Poll>>)
    requires Covers(inputs, histories.Keys) && Covers(inputs, levels.Keys)
    ensures grown.Keys == histories.Keys
  {
    if inputs == [] then histories
    else
      var input := inputs[|inputs| - 1];
      var before := Polled(histories, inputs[..|inputs| - 1], at, levels);
      before[input.pin := before[input.pin] + [PollOf(input, at, levels)]]
  }

  /** The events of one round of polls, in the order of the inputs. */
  ghost function PolledEvents(histories: map<int, seq<Poll>>, inputs: seq<GpioInput>, at: real, levels: map<int, bool>)
    : seq<GpioEvent>
    requires Covers(inputs, histories.Keys) && Covers(inputs, levels.Keys)
  {
    if inputs == [] then []
    else
      var input := inputs[|inputs| - 1];
      var p := PollOf(input, at, levels);
      var h := histories[input.pin] + [p];
      PolledEvents(histories, inputs[..|inputs| - 1], at, levels)
      + if PublishesAt(h, input.bounce, |h| - 1) then [EventOf(input, p.value, false)] else []
  }

  lemma {:induction false} PolledOthers(histories: map<int, seq<Poll>>, inputs: seq<GpioInput>, at: real,
                                        levels: map<int, bool>, pin: int)
    requires Covers(inputs, histories.Keys) && Covers(inputs, levels.Keys) && pin in histories
    requires forall input :: input in inputs ==> input.pin != pin
    ensures Polled(histories, inputs, at, levels)[pin] == histories[pin]
  {
    if inputs != [] {
      PolledOthers(histories, inputs[..|inputs| - 1], at, levels, pin);
    }
  }

  /** A round of polls adds one reading to the history of each input. */
  lemma {:induction false} PolledAddsOne(histories: map<int, seq<Poll>>, inputs: seq<GpioInput>, at: real,
                                         levels: map<int, bool>, i: nat)
    requires Covers(inputs, histories.Keys) && Covers(inputs, levels.Keys) && DistinctPins(inputs) && i < |inputs|
    ensures Polled(histories, inputs, at, levels)[inputs[i].pin]
         == histories[inputs[i].pin] + [PollOf(inputs[i], at, levels)]
  {
    var front := inputs[..|inputs| - 1];
    if i == |front| {
      PolledOthers(histories, front, at, levels, inputs[i].pin);
    } else {
      PolledAddsOne(histories, front, at, levels, i);
    }
  }

  lemma PolledNone(histories: map<int, seq<Poll>>, inputs: seq<GpioInput>, at: real, levels: map<int, bool>)
    requires Covers(inputs, histories.Keys) && Covers(inputs, levels.Keys)
    ensures Polled(histories, inputs[..0], at, levels) == histories
    ensures PolledEvents(histories, inputs[..0], at, levels) == []
  {
  }

  lemma PolledNext(histories: map<int, seq<Poll>>, inputs: seq<GpioInput>, at: real, levels: map<int, bool>, i: nat)
    requires Covers(inputs, histories.Keys) && Covers(inputs, levels.Keys) && DistinctPins(inputs) && i < |inputs|
    ensures var pin, h := inputs[i].pin, histories[inputs[i].pin] + [PollOf(inputs[i], at, levels)];
            var before := Polled(histories, inputs[..i], at, levels);
            && before[pin] == histories[pin]
            && Polled(histories, inputs[..i + 1], at, levels) == before[pin := h]
            && PolledEvents(histories, inputs[..i + 1], at, levels)
                 == PolledEvents(histories, inputs[..i], at, levels)
                    + if PublishesAt(h, inputs[i].bounce, |h| - 1)
                      then [EventOf(inputs[i], PollOf(inputs[i], at, levels).value, false)] else []
  {
    assert inputs[..i + 1][..i] == inputs[..i];
    PolledOthers(histories, inputs[..i], at, levels, inputs[i].pin);
  }

  lemma NextState(h: seq<Poll>, p: Poll, bounce: real)
    requires h != []
    ensures StateAfter(h + [p], bounce) == Step(StateAfter(h, bounce), p, bounce)
    ensures PublishesAt(h + [p], bounce, |h|) <==> Publishes(StateAfter(h, bounce), p, bounce)
  {
    assert (h + [p])[..|h|] == h;
  }

  lemma {:induction false} StreamedOthers(streams: map<int, seq<bool>>, events: seq<GpioEvent>, pin: int)
    requires forall e :: e in events ==> e.pin != pin
    ensures StreamOf(Streamed(streams, events), pin) == StreamOf(streams, pin)
  {
    if events != [] {
      StreamedOthers(streams, events[..|events| - 1], pin);
    }
  }

  /** One event for each of the pins adds its value to the stream of each. */
  lemma {:induction false} InitialStreams(streams: map<int, seq<bool>>, inputs: seq<GpioInput>, events: seq<GpioEvent>, i: nat)
    requires DistinctPins(inputs) && |events| == |inputs| && i < |inputs|
    requires forall j :: 0 <= j < |inputs| ==> events[j].pin == inputs[j].pin
    ensures StreamOf(Streamed(streams, events), inputs[i].pin) == StreamOf(streams, inputs[i].pin) + [events[i].value == 1.0]
    decreases |inputs|
  {
    var front := events[..|events| - 1];
    if i == |front| {
      StreamedOthers(streams, front, inputs[i].pin);
    } else {
      InitialStreams(streams, inputs[..|front|], front, i);
    }
  }

  /** The events of a round add to the stream of a pin what its poll publishes. */
  lemma {:induction false} PolledStreams(streams: map<int, seq<bool>>, histories: map<int, seq<Poll>>,
                                         inputs: seq<GpioInput>, at: real, levels: map<int, bool>, i: nat)
    requires Covers(inputs, histories.Keys) && Covers(inputs, levels.Keys) && DistinctPins(inputs) && i < |inputs|
    ensures var p := PollOf(inputs[i], at, levels);
            var h := histories[inputs[i].pin] + [p];
            StreamOf(Streamed(streams, PolledEvents(histories, inputs, at, levels)), inputs[i].pin) ==
            if PublishesAt(h, inputs[i].bounce, |h| - 1) then StreamOf(streams, inputs[i].pin) + [p.value]
            else StreamOf(streams, inputs[i].pin)
    decreases |inputs|
  {
    hide PublishesAt, Streamed;
    var front, last := inputs[..|inputs| - 1], inputs[|inputs| - 1];
    var events := PolledEvents(histories, front, at, levels);
    var h := histories[last.pin] + [PollOf(last, at, levels)];
    StreamedSnoc(streams, events, EventOf(last, PollOf(last, at, levels).value, false));
    assert events + [] == events;
    if i == |front| {
      EventsOfOthers(histories, front, at, levels, last.pin);
      StreamedOthers(streams, events, last.pin);
    } else {
      PolledStreams(streams, histories, front, at, levels, i);
    }
  }

  lemma RoundKeepsStreams(streams: map<int, seq<bool>>, base: map<int, seq<bool>>, announced: bool,
                          histories: map<int, seq<Poll>>, inputs: seq<GpioInput>, at: real, levels: map<int, bool>)
    requires Covers(inputs, histories.Keys) && Covers(inputs, levels.Keys) && DistinctPins(inputs)
    requires forall input :: input in inputs ==>
               && histories[input.pin] != []
               && Streams(StreamOf(streams, input.pin), StreamOf(base, input.pin), announced, histories[input.pin], input.bounce)
    ensures var after := Streamed(streams, PolledEvents(histories, inputs, at, levels));
            var grown := Polled(histories, inputs, at, levels);
            forall input :: input in inputs ==>
              && grown[input.pin] != []
              && Streams(StreamOf(after, input.pin), StreamOf(base, input.pin), announced, grown[input.pin], input.bounce)
  {
    hide StateAfter, Polled, PolledEvents, PublishesAt, DistinctPins, Streams, Streamed, StreamOf;
    forall i | 0 <= i < |inputs|
      ensures var after := Streamed(streams, PolledEvents(histories, inputs, at, levels));
              var h := Polled(histories, inputs, at, levels)[inputs[i].pin];
              h != [] && Streams(StreamOf(after, inputs[i].pin), StreamOf(base, inputs[i].pin), announced, h, inputs[i].bounce)
    {
      PolledAddsOne(histories, inputs, at, levels, i);
      PolledStreams(streams, histories, inputs, at, levels, i);
      StreamGrows(StreamOf(streams, inputs[i].pin), StreamOf(base, inputs[i].pin), announced,
                  histories[inputs[i].pin], PollOf(inputs[i], at, levels), inputs[i].bounce);
    }
  }

  lemma {:induction false} EventsOfOthers(histories: map<int, seq<Poll>>, inputs: seq<GpioInput>, at: real,
                                          levels: map<int, bool>, pin: int)
    requires Covers(inputs, histories.Keys) && Covers(inputs, levels.Keys)
    requires forall input :: input in inputs ==> input.pin != pin
    ensures forall e :: e in PolledEvents(histories, inputs, at, levels) ==> e.pin != pin
  {
    hide PublishesAt;
    if inputs != [] {
      EventsOfOthers(histories, inputs[..|inputs| - 1], at, levels, pin);
    }
  }

  /** The adapter: the debounce state of every pin it watches. The history of the
      readings since the initial ones is a specification of it. */
  class GpioAdapter {
    var inputs: seq<GpioInput>
    var states: map<int, DebounceState>
    ghost var histories: map<int, seq<Poll>>
    ghost var streams: map<int, seq<bool>> // all that was published, and at the last opening
    ghost var atOpening: map<int, seq<bool>>
    ghost var announced: bool

    ghost predicate Valid()
      reads this
    {
      && DistinctPins(inputs)
      && Covers(inputs, states.Keys) && Covers(inputs, histories.Keys)
      && forall input :: input in inputs ==>
           && histories[input.pin] != [] && states[input.pin] == StateAfter(histories[input.pin], input.bounce)
           && Streams(StreamOf(streams, input.pin), StreamOf(atOpening, input.pin), announced, histories[input.pin], input.bounce)
    }

    /** `start` and `configure_options`: new readers, and a first reading of each
        pin. Nothing is published: what was published before goes on with what
        later polls publish. */
    method Open(newInputs: seq<GpioInput>, now: real, levels: map<int, bool>)
      requires DistinctPins(newInputs) && Covers(newInputs, levels.Keys)
      modifies this
      ensures Valid() && inputs == newInputs
      ensures forall input :: input in inputs ==> histories[input.pin] == [PollOf(input, now, levels)]
      ensures streams == old(streams) == atOpening && !announced
    {
      hide Streams;
      inputs, states, histories := newInputs, map[], map[];
      atOpening, announced := streams, false;
      for i := 0 to |newInputs|
        invariant inputs == newInputs && streams == old(streams) == atOpening && !announced
        invariant Covers(inputs[..i], states.Keys) && Covers(inputs[..i], histories.Keys)
        invariant forall j :: 0 <= j < i ==>
          && histories[inputs[j].pin] == [PollOf(inputs[j], now, levels)]
          && states[inputs[j].pin] == Begin(PollOf(inputs[j], now, levels))
      {
        var p := PollOf(newInputs[i], now, levels);
        states := states[newInputs[i].pin := DebounceState(p.value, p.value, now)];
        histories := histories[newInputs[i].pin := [p]];
      }
      forall input | input in inputs
        ensures Streams(StreamOf(streams, input.pin), StreamOf(atOpening, input.pin), announced, histories[input.pin], input.bounce)
      {
        StreamStarts(StreamOf(streams, input.pin), PollOf(input, now, levels), input.bounce);
      }
    }

    /** `_publish_initial_states`: every input is read again, its state starts
        over from that reading, and the reading is published. */
    method PublishInitialStates(times: seq<real>, levels: map<int, bool>) returns (events: seq<GpioEvent>)
      requires Valid() && |times| == |inputs| && Covers(inputs, levels.Keys)
      modifies this
      ensures Valid() && inputs == old(inputs)
      ensures forall i :: 0 <= i < |inputs| ==> histories[inputs[i].pin] == [PollOf(inputs[i], times[i], levels)]
      ensures |events| == |inputs|
      ensures forall i :: 0 <= i < |inputs| ==>
                events[i] == EventOf(inputs[i], LogicalValue(inputs[i], levels[inputs[i].pin]), true)
      ensures streams == Streamed(old(streams), events) && atOpening == old(streams) && announced
    {
      hide Streams, Streamed, StreamOf;
      events := [];
      atOpening, announced := streams, true;
      for i := 0 to |inputs|
        invariant inputs == old(inputs) && |events| == i
        invariant Covers(inputs, states.Keys) && Covers(inputs, histories.Keys)
        invariant atOpening == old(streams) == streams && announced
        invariant forall j :: 0 <= j < i ==>
          && histories[inputs[j].pin] == [PollOf(inputs[j], times[j], levels)]
          && states[inputs[j].pin] == Begin(PollOf(inputs[j], times[j], levels))
          && events[j] == EventOf(inputs[j], LogicalValue(inputs[j], levels[inputs[j].pin]), true)
      {
        var input := inputs[i];
        var value := LogicalValue(input, levels[input.pin]);
        states := states[input.pin := DebounceState(value, value, times[i])];
        histories := histories[input.pin := [Poll(times[i], value)]];
        events := events + [EventOf(input, value, true)];
      }
      streams := Streamed(streams, events);
      forall i | 0 <= i < |inputs|
        ensures Streams(StreamOf(streams, inputs[i].pin), StreamOf(atOpening, inputs[i].pin), announced,
                        histories[inputs[i].pin], inputs[i].bounce)
      {
        InitialStreams(atOpening, inputs, events, i);
        StreamStarts(StreamOf(atOpening, inputs[i].pin), PollOf(inputs[i], times[i], levels), inputs[i].bounce);
      }
    }

    /** `_poll_once`, for the levels its readers see. */
    method PollOnce(now: real, levels: map<int, bool>) returns (events: seq<GpioEvent>)
      requires Valid() && Covers(inputs, levels.Keys)
      modifies this
      ensures Valid() && inputs == old(inputs)
      ensures histories == Polled(old(histories), inputs, now, levels)
      ensures events == PolledEvents(old(histories), inputs, now, levels)
      ensures streams == Streamed(old(streams), events) && atOpening == old(atOpening) && announced == old(announced)
    {
      hide StateAfter, Polled, PolledEvents, PublishesAt, DistinctPins, Streams, Streamed, StreamOf;
      PolledNone(old(histories), inputs, now, levels);
      events := [];
      for i := 0 to |inputs|
        invariant inputs == old(inputs) && DistinctPins(inputs)
        invariant Covers(inputs, states.Keys) && Covers(inputs, histories.Keys)
        invariant histories == Polled(old(histories), inputs[..i], now, levels)
        invariant events == PolledEvents(old(histories), inputs[..i], now, levels)
        invariant unchanged(`streams) && unchanged(`atOpening) && unchanged(`announced)
        invariant forall input :: input in inputs ==>
          histories[input.pin] != [] && states[input.pin] == StateAfter(histories[input.pin], input.bounce)
      {
        var input := inputs[i];
        var state := states[input.pin];
        var value := LogicalValue(input, levels[input.pin]);
        ghost var h := histories[input.pin];
        PolledNext(old(histories), inputs, now, levels, i);
        NextState(h, Poll(now, value), input.bounce);
        SamePinSameInput(inputs, i);
        if value != state.candidate {
          states := states[input.pin := state.(candidate := value, candidateSince := now)];
        } else if value != state.stable && now - state.candidateSince >= input.bounce {
          states := states[input.pin := state.(stable := value)];
          events := events + [EventOf(input, value, false)];
        }
        histories := histories[input.pin := h + [Poll(now, value)]];
      }
      assert inputs[..|inputs|] == inputs;
      streams := Streamed(streams, events);
      RoundKeepsStreams(old(streams), atOpening, announced, old(histories), inputs, now, levels);
    }
  }

  lemma SamePinSameInput(inputs: seq<GpioInput>, i: nat)
    requires DistinctPins(inputs) && i < |inputs|
    ensures forall input :: input in inputs && input.pin == inputs[i].pin ==> input == inputs[i]
  {
  }
}
