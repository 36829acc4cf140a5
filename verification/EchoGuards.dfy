/** The guards that recognise an adapter's own output when it comes back. */
module EchoGuards {
  import opened Common
  import opened MidiLibrary
  import Text

  datatype Entry<K> = Entry(key: K, at: real)

  /** What happens to a guard. A query reads the clock, too. */
  datatype Event<K> = Configured(window: real) | Recorded(key: K, at: real) | Queried(at: real)

  /** `sent_at >= cutoff` */
  function Prune<K>(recent: seq<Entry<K>>, cutoff: real): (kept: seq<Entry<K>>)
    ensures forall e :: e in kept ==> e in recent && e.at >= cutoff
    ensures forall e :: e in recent && e.at >= cutoff ==> e in kept
  {
    if recent == [] then []
    else
      var before, last := Prune(recent[..|recent| - 1], cutoff), recent[|recent| - 1];
      if last.at >= cutoff then before + [last] else before
  }

  // ---- The whole history ----

  /** The window that is set after these events, zero when the guard is off. */
  function Window<K>(history: seq<Event<K>>): real {
    if history == [] then 0.0
    else
      var last := history[|history| - 1];
      if last.Configured? then last.window else Window(history[..|history| - 1])
  }

  /** The list a guard holds after these events. */
  function Recent<K>(history: seq<Event<K>>): seq<Entry<K>> {
    if history == [] then []
    else
      var front := history[..|history| - 1];
      match history[|history| - 1]
      case Configured(window) => if window > 0.0 then Recent(front) else []
      case Recorded(key, at) =>
        if Window(front) > 0.0 then Prune(Recent(front) + [Entry(key, at)], at - Window(front)) else Recent(front)
      case Queried(at) => if Window(front) > 0.0 then Prune(Recent(front), at - Window(front)) else Recent(front)
  }

  /** The j-th event neither switches the guard off nor finds a record of this
      age outside the window that is set then. */
  predicate Tolerates<K>(history: seq<Event<K>>, j: nat, at: real)
    requires j < |history|
  {
    match history[j]
    case Configured(window) => window > 0.0
    case Recorded(_, now) => now - at <= Window(history[..j])
    case Queried(now) => now - at <= Window(history[..j])
  }

  /** The i-th event recorded something while the guard was on, and it has been
      inside the window at every reading of the clock since. */
  predicate Survives<K>(history: seq<Event<K>>, i: int) {
    && 0 <= i < |history| && history[i].Recorded? && Window(history[..i]) > 0.0
    && forall j :: i < j < |history| ==> Tolerates(history, j, history[i].at)
  }

  lemma WindowOfPrefix<K>(history: seq<Event<K>>, n: nat, j: nat)
    requires j <= n <= |history|
    ensures Window(history[..n][..j]) == Window(history[..j])
  {
    assert history[..n][..j] == history[..j];
  }

  lemma TolerateInPrefix<K>(history: seq<Event<K>>, n: nat, j: nat, at: real)
    requires j < n <= |history|
    ensures Tolerates(history[..n], j, at) <==> Tolerates(history, j, at)
  {
    WindowOfPrefix(history, n, j);
  }

  lemma SurvivesLonger<K>(history: seq<Event<K>>, i: int)
    requires 0 <= i < |history| - 1
    ensures Survives(history, i) <==>
            Survives(history[..|history| - 1], i) && history[i].Recorded? && Tolerates(history, |history| - 1, history[i].at)
  {
    hide Tolerates, Window;
    var n := |history| - 1;
    WindowOfPrefix(history, n, i);
    if history[i].Recorded? {
      forall j | 0 <= j < n
        ensures Tolerates(history[..n], j, history[i].at) <==> Tolerates(history, j, history[i].at)
      {
        TolerateInPrefix(history, n, j, history[i].at);
      }
    }
  }

  /** A guard holds exactly the records that were inside the window at every
      reading since, and were not wiped out by switching it off. */
  ghost predicate IsRecordOf<K>(history: seq<Event<K>>, e: Entry<K>) {
    exists i :: Survives(history, i) && Entry(history[i].key, history[i].at) == e
  }

  lemma {:induction false} RecentIsSurviving<K>(history: seq<Event<K>>, e: Entry<K>)
    ensures e in Recent(history) <==> IsRecordOf(history, e)
    decreases |history|
  {
    hide Survives, Tolerates;
    if history == [] {
      assert !IsRecordOf(history, e) by { NothingSurvives(e); }
    } else {
      RecentIsSurviving(history[..|history| - 1], e);
      RecordsGrow(history, e);
      RecentGrows(history, e);
    }
  }

  lemma NothingSurvives<K>(e: Entry<K>)
    ensures !IsRecordOf([], e)
  {
  }

  /** Whether the last event is the record itself, made while the guard is on. */
  ghost predicate JustRecorded<K>(history: seq<Event<K>>, e: Entry<K>)
    requires history != []
  {
    var front := history[..|history| - 1];
    history[|history| - 1] == Recorded(e.key, e.at) && Window(front) > 0.0
  }

  lemma RecordsGrow<K>(history: seq<Event<K>>, e: Entry<K>)
    requires history != []
    ensures IsRecordOf(history, e) <==>
            || JustRecorded(history, e)
            || (IsRecordOf(history[..|history| - 1], e) && Tolerates(history, |history| - 1, e.at))
  {
    hide Tolerates;
    var n := |history| - 1;
    var front := history[..n];
    forall i | 0 <= i < n
      ensures Survives(history, i) <==> Survives(front, i) && history[i].Recorded? && Tolerates(history, n, history[i].at)
    {
      SurvivesLonger(history, i);
    }
    if JustRecorded(history, e) {
      assert Survives(history, n);
    }
    if i :| Survives(front, i) && Entry(front[i].key, front[i].at) == e && Tolerates(history, n, e.at) {
      assert Survives(history, i);
    }
    if i :| Survives(history, i) && Entry(history[i].key, history[i].at) == e && i < n {
      assert Survives(front, i) && Entry(front[i].key, front[i].at) == e;
    }
  }

  lemma RecentGrows<K>(history: seq<Event<K>>, e: Entry<K>)
    requires history != []
    ensures e in Recent(history) <==>
            || JustRecorded(history, e)
            || (e in Recent(history[..|history| - 1]) && Tolerates(history, |history| - 1, e.at))
  {
    hide Window;
    var n := |history| - 1;
    OffMeansEmpty(history[..n]);
    match history[n]
    case Recorded(key, at) => PruneSnoc(Recent(history[..n]), Entry(key, at), at - Window(history[..n]), e);
    case _ =>
  }

  lemma PruneSnoc<K>(recent: seq<Entry<K>>, last: Entry<K>, cutoff: real, e: Entry<K>)
    ensures e in Prune(recent + [last], cutoff) <==> (e in recent || e == last) && e.at >= cutoff
  {
    hide Prune;
    assert e in recent + [last] <==> e in recent || e == last;
  }

  lemma {:induction false} OffMeansEmpty<K>(history: seq<Event<K>>)
    ensures Window(history) <= 0.0 ==> Recent(history) == []
  {
    if history != [] {
      OffMeansEmpty(history[..|history| - 1]);
    }
  }

  // ---- When the pruning is invisible ----

  predicate ClockIsMonotonic<K>(history: seq<Event<K>>) {
    forall i, j :: 0 <= i < j < |history| && !history[i].Configured? && !history[j].Configured? ==>
      history[i].at <= history[j].at
  }

  /** Since the i-th event the guard was never off, and its window never grew. */
  predicate NeverEnlargedSince<K>(history: seq<Event<K>>, i: nat) {
    forall j :: i < j < |history| && history[j].Configured? ==>
      0.0 < history[j].window <= Window(history[..j])
  }

  lemma {:induction false} WindowShrinks<K>(history: seq<Event<K>>, i: nat, j: nat)
    requires i < j <= |history| && NeverEnlargedSince(history, i)
    requires !history[i].Configured?
    ensures Window(history) <= Window(history[..j])
    decreases |history| - j
  {
    if j < |history| {
      WindowShrinks(history, i, j + 1);
      assert history[..j + 1][..j] == history[..j];
    } else {
      assert history[..j] == history;
    }
  }

  /** A record inside the window is found if the clock never ran backwards and
      the window was never enlarged since it was made. */
  lemma FoundUnlessEnlarged<K>(history: seq<Event<K>>, i: nat, now: real)
    requires i < |history| && history[i].Recorded? && Window(history[..i]) > 0.0
    requires ClockIsMonotonic(history) && NeverEnlargedSince(history, i)
    requires forall j :: 0 <= j < |history| && !history[j].Configured? ==> history[j].at <= now
    requires now - history[i].at <= Window(history)
    ensures Survives(history, i)
  {
    hide Window;
    forall j | i < j < |history|
      ensures Tolerates(history, j, history[i].at)
    {
      if !history[j].Configured? {
        WindowShrinks(history, i, j);
      }
    }
  }

  /** The guard has not been off from this event on, and was before it. */
  predicate OnSince<K>(history: seq<Event<K>>, from: nat) {
    && from <= |history|
    && (from > 0 ==> history[from - 1].Configured? && history[from - 1].window <= 0.0)
    && forall j :: from <= j < |history| && history[j].Configured? ==> history[j].window > 0.0
  }

  /** No configuration from this event on replaces a window by a larger one. */
  predicate NeverEnlargedFrom<K>(history: seq<Event<K>>, from: nat) {
    forall j :: from <= j < |history| && history[j].Configured? && Window(history[..j]) > 0.0 ==>
      history[j].window <= Window(history[..j])
  }

  predicate NotLaterThan<K>(history: seq<Event<K>>, now: real) {
    forall j :: 0 <= j < |history| && !history[j].Configured? ==> history[j].at <= now
  }

  /** The i-th event recorded something while the guard was on. */
  predicate RecordedFrom<K>(history: seq<Event<K>>, from: nat, i: int) {
    from <= i < |history| && history[i].Recorded? && Window(history[..i]) > 0.0
  }

  lemma {:induction false} StaysOn<K>(history: seq<Event<K>>, from: nat, i: nat, j: nat)
    requires OnSince(history, from) && RecordedFrom(history, from, i) && i <= j <= |history|
    ensures Window(history[..j]) > 0.0
    decreases j
  {
    if i < j {
      StaysOn(history, from, i, j - 1);
      assert history[..j][..j - 1] == history[..j - 1];
    }
  }

  lemma RecordedSurvives<K>(history: seq<Event<K>>, from: nat, i: int, now: real)
    requires OnSince(history, from) && NeverEnlargedFrom(history, from)
    requires ClockIsMonotonic(history) && NotLaterThan(history, now)
    requires RecordedFrom(history, from, i) && now - history[i].at <= Window(history)
    ensures Survives(history, i)
  {
    hide Window;
    forall j | i < j < |history| && history[j].Configured?
      ensures 0.0 < history[j].window <= Window(history[..j])
    {
      StaysOn(history, from, i, j);
    }
    FoundUnlessEnlarged(history, i, now);
  }

  lemma SurvivorIsRecorded<K>(history: seq<Event<K>>, from: nat, i: int)
    requires OnSince(history, from) && Survives(history, i)
    ensures RecordedFrom(history, from, i)
  {
    hide Window, Tolerates;
    if i < from {
      OffIsNotTolerated(history, from - 1, history[i].at);
    }
  }

  lemma OffIsNotTolerated<K>(history: seq<Event<K>>, j: nat, at: real)
    requires j < |history| && history[j].Configured? && history[j].window <= 0.0
    ensures !Tolerates(history, j, at)
  {
  }

  /** With a window that is enlarged a record can be gone although it lies within
      the new window: the shorter one has already dropped it. */
  lemma EnlargingLosesRecords()
    ensures var history: seq<Event<int>> := [Configured(0.01), Recorded(7, 0.0), Queried(1.0), Configured(5.0)];
            && history[1] == Recorded(7, 0.0) && 2.0 - 0.0 <= Window(history)
            && Entry(7, 0.0) !in Recent(history)
  {
    var history: seq<Event<int>> := [Configured(0.01), Recorded(7, 0.0), Queried(1.0), Configured(5.0)];
    assert history[..2][..1] == [Configured(0.01)];
    assert Window(history[..2]) == 0.01;
    assert !Tolerates(history, 2, 0.0);
    RecentIsSurviving(history, Entry(7, 0.0));
  }

  // ---- The guards ----

  function Seconds(windowMs: int): real {
    (if windowMs > 0 then windowMs as real else 0.0) / 1000.0
  }

  datatype MidiKey = MidiKey(status: int, data: seq<int>)

  function MaskedData(data: seq<int>): (masked: seq<int>)
    ensures |masked| == |data|
  {
    if data == [] then [] else MaskedData(data[..|data| - 1]) + [BitAnd(0x7F, data[|data| - 1])]
  }

  function MidiMessageKey(status: int, data: seq<int>): MidiKey {
    MidiKey(BitAnd(0xFF, status), MaskedData(data))
  }

  lemma {:induction false} MaskedAt(data: seq<int>)
    ensures forall i :: 0 <= i < |data| ==> MaskedData(data)[i] == data[i] % 128
  {
    hide BitAnd;
    if data != [] {
      var last := data[|data| - 1];
      MaskedAt(data[..|data| - 1]);
      LowSeptet(last);
    }
  }

  /** Two messages count as the same exactly when they agree in the low eight bits
      of the status, in their length, and in the low seven bits of each data byte. */
  lemma SameMessageIff(status: int, data: seq<int>, status': int, data': seq<int>)
    ensures MidiMessageKey(status, data) == MidiMessageKey(status', data') <==>
            && status % 256 == status' % 256 && |data| == |data'|
            && forall i :: 0 <= i < |data| ==> data[i] % 128 == data'[i] % 128
  {
    hide BitAnd, MaskedData;
    LowOctet(status);
    LowOctet(status');
    MaskedAt(data);
    MaskedAt(data');
    if |data| == |data'| && forall i :: 0 <= i < |data| ==> data[i] % 128 == data'[i] % 128 {
      assert MaskedData(data) == MaskedData(data');
    }
  }

  /** A window in milliseconds; none below one. */
  lemma WindowInSeconds(windowMs: int)
    ensures if windowMs <= 0 then Seconds(windowMs) == 0.0 else Seconds(windowMs) * 1000.0 == windowMs as real
  {
  }

  class MidiEchoGuard {
    var windowSeconds: real
    var recent: seq<Entry<MidiKey>>
    ghost var history: seq<Event<MidiKey>>

    ghost predicate Valid()
      reads this
    {
      windowSeconds == Window(history) && recent == Recent(history)
    }

    constructor (windowMs: int := 30)
      ensures Valid() && history == [Configured(Seconds(windowMs))]
    {
      windowSeconds, recent, history := Seconds(windowMs), [], [Configured(Seconds(windowMs))];
    }

    method Configure(windowMs: int)
      requires Valid()
      modifies this
      ensures Valid() && history == old(history) + [Configured(Seconds(windowMs))]
    {
      windowSeconds := Seconds(windowMs);
      if !(windowSeconds > 0.0) {
        recent := [];
      }
      history := history + [Configured(Seconds(windowMs))];
      assert history[..|history| - 1] == old(history);
    }

    method Record(status: int, data: seq<int>, now: real)
      requires Valid()
      modifies this
      ensures Valid() && history == old(history) + [Recorded(MidiMessageKey(status, data), now)]
    {
      history := history + [Recorded(MidiMessageKey(status, data), now)];
      assert history[..|history| - 1] == old(history);
      if !(windowSeconds > 0.0) {
        return;
      }
      recent := recent + [Entry(MidiMessageKey(status, data), now)];
      recent := Prune(recent, now - windowSeconds);
    }

    /** Whether a message is an echo: whether the same message, up to the bits
        that do not count, was recorded, has stayed within the window ever since,
        and still is. */
    method IsEcho(status: int, data: seq<int>, now: real) returns (echo: bool)
      requires Valid()
      modifies this
      ensures Valid() && history == old(history) + [Queried(now)]
      ensures echo <==> IsMidiEcho(old(history), MidiMessageKey(status, data), now)
    {
      hide Survives, MidiMessageKey, Recent, Window, IsMidiEcho;
      QueryPrunes(history, now);
      MidiEchoIsHeld(history, MidiMessageKey(status, data), now);
      history := history + [Queried(now)];
      if !(windowSeconds > 0.0) {
        return false;
      }
      recent := Prune(recent, now - windowSeconds);
      var key := MidiMessageKey(status, data);
      echo := exists e :: e in recent && e.key == key && now - e.at <= windowSeconds;
    }
  }

  /** A matching message was recorded, was within the window at every reading
      since, and is within it now. */
  ghost predicate IsMidiEcho(history: seq<Event<MidiKey>>, key: MidiKey, now: real) {
    && Window(history) > 0.0
    && exists i :: Survives(history, i) && history[i].key == key && now - history[i].at <= Window(history)
  }

  /** On a clock that never runs backwards, with a window that was never enlarged
      since the guard was last off, a message is an echo if and only if a matching
      one was recorded since then and lies within the window. */
  lemma MidiEchoIff(history: seq<Event<MidiKey>>, from: nat, key: MidiKey, now: real)
    requires OnSince(history, from) && NeverEnlargedFrom(history, from)
    requires ClockIsMonotonic(history) && NotLaterThan(history, now)
    ensures IsMidiEcho(history, key, now) <==>
            && Window(history) > 0.0
            && exists i :: RecordedFrom(history, from, i) && history[i].key == key && now - history[i].at <= Window(history)
  {
    hide Window, ClockIsMonotonic, NeverEnlargedFrom, OnSince, NotLaterThan;
    forall i | RecordedFrom(history, from, i)
      ensures now - history[i].at <= Window(history) ==> Survives(history, i)
    {
      if now - history[i].at <= Window(history) {
        RecordedSurvives(history, from, i, now);
      }
    }
    forall i | Survives(history, i)
      ensures RecordedFrom(history, from, i)
    {
      SurvivorIsRecorded(history, from, i);
    }
  }

  ghost predicate WasSent(history: seq<Event<MidiKey>>, from: nat, key: MidiKey, now: real) {
    exists i :: RecordedFrom(history, from, i) && history[i].key == key && now - history[i].at <= Window(history)
  }

  /** A surviving record of the key that is not older than the i-th event. */
  ghost predicate Covered(history: seq<Event<MidiKey>>, key: MidiKey, at: real) {
    exists j :: Survives(history, j) && history[j].key == key && history[j].at >= at
  }

  /** After any history, whatever its clock and its windows: the guard will answer
      all coming queries for a key by what was recorded since it was last off if
      and only if every such record that can still lie within the window is held,
      or a newer one of the key is. */
  lemma MidiEchoAgreesIff(history: seq<Event<MidiKey>>, from: nat, key: MidiKey, latest: real)
    requires OnSince(history, from) && Window(history) > 0.0
    ensures (forall now :: now >= latest ==> (IsMidiEcho(history, key, now) <==> WasSent(history, from, key, now)))
            <==>
            (forall i :: RecordedFrom(history, from, i) && history[i].key == key && latest - history[i].at <= Window(history) ==>
               Covered(history, key, history[i].at))
  {
    hide Window, OnSince;
    forall i | Survives(history, i)
      ensures RecordedFrom(history, from, i)
    {
      SurvivorIsRecorded(history, from, i);
    }
    if forall now :: now >= latest ==> (IsMidiEcho(history, key, now) <==> WasSent(history, from, key, now)) {
      forall i | RecordedFrom(history, from, i) && history[i].key == key && latest - history[i].at <= Window(history)
        ensures Covered(history, key, history[i].at)
      {
        assert WasSent(history, from, key, history[i].at + Window(history));
        assert IsMidiEcho(history, key, history[i].at + Window(history));
      }
    }
  }

  lemma MidiEchoIsHeld(history: seq<Event<MidiKey>>, key: MidiKey, now: real)
    ensures IsMidiEcho(history, key, now) <==>
            Window(history) > 0.0 && exists e :: e in Recent(history) && e.key == key && now - e.at <= Window(history)
  {
    hide Recent, Window;
    if e :| e in Recent(history) && e.key == key && now - e.at <= Window(history) {
      EntryIsRecord(history, e);
    }
    if IsMidiEcho(history, key, now) {
      var i :| Survives(history, i) && history[i].key == key && now - history[i].at <= Window(history);
      RecordIsEntry(history, i);
    }
  }

  datatype OscKey = OscKey(address: string, value: real)

  function OscMessageKey(address: string, value: real): OscKey {
    OscKey(Text.Strip(address), value)
  }

  predicate OscKeysMatch(sent: OscKey, key: OscKey, tolerance: real) {
    sent.address == key.address &&
    Distance(sent.value, key.value) <= tolerance
  }

  /** Two OSC values match exactly when their addresses agree up to blanks around
      them and the values differ by no more than the tolerance. */
  lemma SameValueIff(address: string, value: real, address': string, value': real, tolerance: real)
    ensures OscKeysMatch(OscMessageKey(address, value), OscMessageKey(address', value'), tolerance) <==>
            Text.Strip(address) == Text.Strip(address') && -tolerance <= value - value' <= tolerance
  {
  }

  class OscEchoGuard {
    var windowSeconds: real
    const tolerance: real
    var recent: seq<Entry<OscKey>>
    ghost var history: seq<Event<OscKey>>

    ghost predicate Valid()
      reads this
    {
      windowSeconds == Window(history) && recent == Recent(history)
    }

    constructor (windowMs: int := 30, tolerance: real := 0.0001)
      ensures Valid() && history == [Configured(Seconds(windowMs))] && this.tolerance == tolerance
    {
      windowSeconds, recent, history := Seconds(windowMs), [], [Configured(Seconds(windowMs))];
      this.tolerance := tolerance;
    }

    method Configure(windowMs: int)
      requires Valid()
      modifies this
      ensures Valid() && history == old(history) + [Configured(Seconds(windowMs))]
    {
      windowSeconds := Seconds(windowMs);
      if !(windowSeconds > 0.0) {
        recent := [];
      }
      history := history + [Configured(Seconds(windowMs))];
      assert history[..|history| - 1] == old(history);
    }

    method Record(address: string, value: real, now: real)
      requires Valid()
      modifies this
      ensures Valid() && history == old(history) + [Recorded(OscMessageKey(address, value), now)]
    {
      history := history + [Recorded(OscMessageKey(address, value), now)];
      assert history[..|history| - 1] == old(history);
      if !(windowSeconds > 0.0) {
        return;
      }
      recent := recent + [Entry(OscMessageKey(address, value), now)];
      recent := Prune(recent, now - windowSeconds);
    }

    /** Whether a value at this address, within the tolerance, was recorded, has
        stayed within the window ever since, and still is. */
    method IsEcho(address: string, value: real, now: real) returns (echo: bool)
      requires Valid()
      modifies this
      ensures Valid() && history == old(history) + [Queried(now)]
      ensures echo <==> IsOscEcho(old(history), OscMessageKey(address, value), tolerance, now)
    {
      hide Survives, OscMessageKey, OscKeysMatch, Recent, Window, IsOscEcho;
      QueryPrunes(history, now);
      OscEchoIsHeld(history, OscMessageKey(address, value), tolerance, now);
      history := history + [Queried(now)];
      if !(windowSeconds > 0.0) {
        return false;
      }
      ghost var held := recent;
      recent := Prune(recent, now - windowSeconds);
      var key := OscMessageKey(address, value);
      for i := 0 to |recent|
        invariant forall e :: e in recent[..i] ==> !(OscKeysMatch(e.key, key, tolerance) && now - e.at <= windowSeconds)
      {
        var e := recent[i];
        if now - e.at > windowSeconds {
          continue;
        }
        if OscKeysMatch(e.key, key, tolerance) {
          assert e in held;
          return true;
        }
      }
      assert recent[..|recent|] == recent;
      return false;
    }
  }

  /** A value within the tolerance was recorded for the same address, was within
      the window at every reading since, and is within it now. */
  ghost predicate IsOscEcho(history: seq<Event<OscKey>>, key: OscKey, tolerance: real, now: real) {
    && Window(history) > 0.0
    && exists i :: Survives(history, i) && OscKeysMatch(history[i].key, key, tolerance) && now - history[i].at <= Window(history)
  }

  /** The same for values of an address. */
  lemma OscEchoIff(history: seq<Event<OscKey>>, from: nat, key: OscKey, tolerance: real, now: real)
    requires OnSince(history, from) && NeverEnlargedFrom(history, from)
    requires ClockIsMonotonic(history) && NotLaterThan(history, now)
    ensures IsOscEcho(history, key, tolerance, now) <==>
            && Window(history) > 0.0
            && exists i :: RecordedFrom(history, from, i) && OscKeysMatch(history[i].key, key, tolerance)
                             && now - history[i].at <= Window(history)
  {
    hide Window, ClockIsMonotonic, NeverEnlargedFrom, OnSince, NotLaterThan, OscKeysMatch;
    forall i | RecordedFrom(history, from, i)
      ensures now - history[i].at <= Window(history) ==> Survives(history, i)
    {
      if now - history[i].at <= Window(history) {
        RecordedSurvives(history, from, i, now);
      }
    }
    forall i | Survives(history, i)
      ensures RecordedFrom(history, from, i)
    {
      SurvivorIsRecorded(history, from, i);
    }
  }

  lemma OscEchoIsHeld(history: seq<Event<OscKey>>, key: OscKey, tolerance: real, now: real)
    ensures IsOscEcho(history, key, tolerance, now) <==>
            && Window(history) > 0.0
            && exists e :: e in Recent(history) && OscKeysMatch(e.key, key, tolerance) && now - e.at <= Window(history)
  {
    hide Recent, Window, OscKeysMatch;
    if e :| e in Recent(history) && OscKeysMatch(e.key, key, tolerance) && now - e.at <= Window(history) {
      EntryIsRecord(history, e);
    }
    if IsOscEcho(history, key, tolerance, now) {
      var i :| Survives(history, i) && OscKeysMatch(history[i].key, key, tolerance)
               && now - history[i].at <= Window(history);
      RecordIsEntry(history, i);
    }
  }

  lemma QueryPrunes<K>(history: seq<Event<K>>, now: real)
    ensures var after := history + [Queried(now)];
            && Window(after) == Window(history)
            && Recent(after) == if Window(history) > 0.0 then Prune(Recent(history), now - Window(history)) else Recent(history)
  {
    hide Prune;
    assert (history + [Queried(now)])[..|history|] == history;
  }

  lemma EntryIsRecord<K>(history: seq<Event<K>>, e: Entry<K>)
    requires e in Recent(history)
    ensures exists i :: Survives(history, i) && history[i].key == e.key && history[i].at == e.at
  {
    hide Survives, Recent;
    RecentIsSurviving(history, e);
  }

  lemma RecordIsEntry<K>(history: seq<Event<K>>, i: int)
    requires Survives(history, i)
    ensures 0 <= i < |history| && history[i].Recorded? && Entry(history[i].key, history[i].at) in Recent(history)
  {
    hide Recent, Tolerates;
    var e := Entry(history[i].key, history[i].at);
    assert IsRecordOf(history, e);
    RecentIsSurviving(history, e);
  }
}
