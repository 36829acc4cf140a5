/** High-rate monitor payloads are held per key and flushed later. Unlike the
    Wing coalescers, a task empties its slot before it has finished, so that the
    slot can be taken over, and overwritten, while the old task is still alive. */
module MonitorCoalesce {
  import opened Common
  import opened CoalescingLog

  type Payload = string

  /** Where a flush task is suspended. `Flushing` is inside the `try` block and
      the last two are inside its `finally` block. */
  datatype Phase =
    | Created
    | Sleeping(started: real)
    | Flushing(started: real, takenAt: real)
    | Resting
    | FlushingAgain

  datatype Task = Task(key: string, phase: Phase)

  datatype State = State(
    interval: real, pending: map<string, Payload>, slots: map<string, nat>,
    live: map<nat, Task>, nextId: nat, log: seq<Event<Payload>>, now: real)

  datatype Action =
    | Offer(key: string, payload: Payload)
    | Begin(id: nat)
    | Wake(id: nat)
    | FlushDone(id: nat)                       // returned or raised: `finally` runs either way
    | WakeAgain(id: nat)
    | FlushAgainDone(id: nat, raised: bool)

  datatype Step = Step(action: Action, at: real)

  /** Timers may fire at any moment; what depends on their accuracy asks for it
      (`OnTime`). */
  ghost predicate Enabled(s: State, step: Step) {
    && step.at >= s.now
    && match step.action
       case Offer(_, _) => true
       case Begin(id) => id in s.live && s.live[id].phase.Created?
       case Wake(id) => id in s.live && s.live[id].phase.Sleeping?
       case FlushDone(id) => id in s.live && s.live[id].phase.Flushing?
       case WakeAgain(id) => id in s.live && s.live[id].phase.Resting?
       case FlushAgainDone(id, _) => id in s.live && s.live[id].phase.FlushingAgain?
  }

  ghost function Suspend(s: State, id: nat, phase: Phase): State
    requires id in s.live
  {
    s.(live := s.live[id := s.live[id].(phase := phase)])
  }

  ghost function Spawn(s: State, key: string): State {
    s.(slots := s.slots[key := s.nextId], live := s.live[s.nextId := Task(key, Created)], nextId := s.nextId + 1)
  }

  ghost function Take(s: State, key: string, at: real): State
    requires key in s.pending
  {
    s.(pending := s.pending - {key}, log := s.log + [Taken(key, s.pending[key], at)])
  }

  /** The second look at `pending`, from inside the `finally` block. */
  ghost function SecondLook(s: State, id: nat, at: real): State
    requires id in s.live
  {
    var key := s.live[id].key;
    if key in s.pending then Suspend(Take(s, key, at), id, FlushingAgain)
    else s.(live := s.live - {id})
  }

  /** The start of the `finally` block, up to its next `await`. */
  ghost function Finally(s: State, id: nat, started: real, at: real): State
    requires id in s.live
  {
    var key := s.live[id].key;
    var t := s.(slots := s.slots - {key});
    if key !in t.pending then t.(live := t.live - {id})
    else if s.interval - (at - started) > 0.0 then Suspend(t, id, Resting)
    else SecondLook(t, id, at)
  }

  ghost function Next(s: State, step: Step): State
    requires Enabled(s, step)
  {
    var t := s.(now := step.at);
    match step.action
    case Offer(k, p) =>
      var stored := t.(pending := s.pending[k := p], log := s.log + [Stored(k, p)]);
      if k in s.slots && s.slots[k] in s.live then stored else Spawn(stored, k)
    case Begin(id) => Suspend(t, id, Sleeping(step.at))
    case Wake(id) =>
      var key, started := s.live[id].key, s.live[id].phase.started;
      if key in s.pending then Suspend(Take(t, key, step.at), id, Flushing(started, step.at))
      else Finally(t, id, started, step.at)
    case FlushDone(id) => Finally(t, id, s.live[id].phase.started, step.at)
    case WakeAgain(id) => SecondLook(t, id, step.at)
    case FlushAgainDone(id, raised) =>
      var key := s.live[id].key;
      var done := t.(live := s.live - {id});
      if key in s.pending && !raised then Spawn(done, key) else done
  }

  ghost function Fresh(interval: real): State {
    State(interval, map[], map[], map[], 0, [], 0.0)
  }

  ghost predicate Admissible(s: State, steps: seq<Step>)
    decreases |steps|
  {
    steps == [] || (Enabled(s, steps[0]) && Admissible(Next(s, steps[0]), steps[1..]))
  }

  ghost function Exec(s: State, steps: seq<Step>): State
    requires Admissible(s, steps)
    decreases |steps|
  {
    if steps == [] then s else Exec(Next(s, steps[0]), steps[1..])
  }

  /** A live task that still has a look at `pending` ahead of it. */
  ghost predicate Watches(s: State, id: nat, key: string) {
    id in s.live && s.live[id].key == key && !s.live[id].phase.FlushingAgain?
  }

  ghost predicate SlotsWatch(s: State) {
    && (forall k :: k in s.slots ==>
         Watches(s, s.slots[k], k) && !s.live[s.slots[k]].phase.Resting?)
    && (forall id :: id in s.live ==> id < s.nextId)
  }

  ghost predicate Covered(s: State) {
    forall k :: k in s.pending ==> exists id :: Watches(s, id, k)
  }

  ghost predicate Accounted(s: State) {
    && (forall k :: Owed(s.log, k) == if k in s.pending then Some(s.pending[k]) else None)
    && Faithful(s.log)
  }

  ghost predicate Inv(s: State) {
    SlotsWatch(s) && Covered(s) && Accounted(s)
  }

  /** A task that holds no slot any more may finish or be suspended anywhere. */
  lemma FreeTaskKeepsSlots(s: State, t: State, id: nat)
    requires SlotsWatch(s) && id in s.live && forall k :: k in s.slots ==> s.slots[k] != id
    requires t.slots == s.slots && t.nextId == s.nextId
    requires t.live == s.live - {id} || (id in t.live && t.live == s.live[id := t.live[id]])
    ensures SlotsWatch(t)
  {
  }

  lemma SlotsWithout(s: State, id: nat)
    requires SlotsWatch(s) && id in s.live
    ensures var t := s.(slots := s.slots - {s.live[id].key});
            SlotsWatch(t) && forall k :: k in t.slots ==> t.slots[k] != id
  {
  }

  lemma FinallyKeepsSlots(s: State, id: nat, started: real, at: real)
    requires SlotsWatch(s) && id in s.live
    ensures SlotsWatch(Finally(s, id, started, at))
  {
    hide SlotsWatch;
    var t := s.(slots := s.slots - {s.live[id].key});
    SlotsWithout(s, id);
    FreeTaskKeepsSlots(t, Finally(s, id, started, at), id);
  }

  lemma SuspendKeepsSlots(s: State, t: State, id: nat)
    requires SlotsWatch(s) && id in s.live && id in t.live && t.live == s.live[id := t.live[id]]
    requires t.live[id].key == s.live[id].key && !t.live[id].phase.Resting? && !t.live[id].phase.FlushingAgain?
    requires t.slots == s.slots && t.nextId == s.nextId
    ensures SlotsWatch(t)
  {
  }

  lemma OfferKeepsSlots(s: State, t: State, key: string)
    requires SlotsWatch(s) && t.live == s.live && t.slots == s.slots && t.nextId == s.nextId
    ensures SlotsWatch(t) && SlotsWatch(Spawn(t, key))
  {
  }

  lemma RestingHoldsNoSlot(s: State, id: nat)
    requires SlotsWatch(s) && id in s.live && (s.live[id].phase.Resting? || s.live[id].phase.FlushingAgain?)
    ensures forall k :: k in s.slots ==> s.slots[k] != id
  {
  }

  lemma SlotsKept(s: State, step: Step)
    requires Inv(s) && Enabled(s, step)
    ensures SlotsWatch(Next(s, step))
  {
    hide SlotsWatch, Covered, Accounted;
    var t, next := s.(now := step.at), Next(s, step);
    assert SlotsWatch(t) by { OfferKeepsSlots(s, t, ""); }
    match step.action
    case Offer(k, p) => OfferKeepsSlots(t, t.(pending := next.pending, log := next.log), k);
    case Begin(id) => SuspendKeepsSlots(t, next, id);
    case Wake(id) =>
      if s.live[id].key in s.pending {
        SuspendKeepsSlots(t, next, id);
      } else {
        hide Finally;
        FinallyKeepsSlots(t, id, s.live[id].phase.started, step.at);
      }
    case FlushDone(id) =>
      hide Finally;
      FinallyKeepsSlots(t, id, s.live[id].phase.started, step.at);
    case WakeAgain(id) =>
      RestingHoldsNoSlot(t, id);
      FreeTaskKeepsSlots(t, next, id);
    case FlushAgainDone(id, _) =>
      RestingHoldsNoSlot(t, id);
      var done := t.(live := t.live - {id});
      FreeTaskKeepsSlots(t, done, id);
      OfferKeepsSlots(done, done, s.live[id].key);
  }

  /** Whichever task watched a key before the step keeps watching it as long as
      its value is pending. */
  lemma WatcherStays(s: State, step: Step, id: nat, k: string)
    requires Enabled(s, step) && Watches(s, id, k) && id < s.nextId
    requires k in Next(s, step).pending
    ensures Watches(Next(s, step), id, k)
  {
  }

  lemma CoverKept(s: State, step: Step)
    requires Inv(s) && Enabled(s, step)
    ensures Covered(Next(s, step))
  {
    hide Next, Accounted, Watches;
    var t := Next(s, step);
    forall k | k in t.pending
      ensures exists id :: Watches(t, id, k)
    {
      if step.action.Offer? && step.action.key == k {
        SlotsKept(s, step);
        assert k in t.slots by { OfferFillsSlot(s, step); }
        assert Watches(t, t.slots[k], k);
      } else {
        assert k in s.pending by { OnlyOffersAdd(s, step, k); }
        var id: nat :| Watches(s, id, k);
        assert id < s.nextId by { WatcherIsOld(s, id, k); }
        WatcherStays(s, step, id, k);
      }
    }
  }

  lemma OfferFillsSlot(s: State, step: Step)
    requires Enabled(s, step) && step.action.Offer?
    ensures step.action.key in Next(s, step).slots
  {
  }

  lemma OnlyOffersAdd(s: State, step: Step, k: string)
    requires Enabled(s, step) && k in Next(s, step).pending && !(step.action.Offer? && step.action.key == k)
    ensures k in s.pending
  {
  }

  lemma WatcherIsOld(s: State, id: nat, k: string)
    requires SlotsWatch(s) && Watches(s, id, k)
    ensures id < s.nextId
  {
  }

  /** Apart from offers, a step takes the payload of its own key, or none. */
  lemma TakesOrKeeps(s: State, step: Step)
    requires Enabled(s, step) && !step.action.Offer?
    ensures var t, key := Next(s, step), s.live[step.action.id].key;
            || (t.log == s.log && t.pending == s.pending)
            || (key in s.pending && t.pending == s.pending - {key} && t.log == s.log + [Taken(key, s.pending[key], step.at)])
  {
  }

  lemma TakeIsAccounted(s: State, t: State, key: string, at: real)
    requires Accounted(s) && key in s.pending
    requires t.pending == s.pending - {key} && t.log == s.log + [Taken(key, s.pending[key], at)]
    ensures Accounted(t)
  {
    hide Owed, Faithful;
    var e := Taken(key, s.pending[key], at);
    assert Owed(s.log, key) == Some(s.pending[key]);
    OwedAppend(s.log, e);
    FaithfulAppend(s.log, e);
  }

  lemma OfferIsAccounted(s: State, t: State, key: string, payload: Payload)
    requires Accounted(s) && t.pending == s.pending[key := payload] && t.log == s.log + [Stored(key, payload)]
    ensures Accounted(t)
  {
    hide Owed, Faithful;
    var e := Stored(key, payload);
    OwedAppend(s.log, e);
    FaithfulAppend(s.log, e);
  }

  lemma LogKept(s: State, step: Step)
    requires Accounted(s) && Enabled(s, step)
    ensures Accounted(Next(s, step))
  {
    hide Owed, Faithful, Accounted;
    if step.action.Offer? {
      OfferIsAccounted(s, Next(s, step), step.action.key, step.action.payload);
    } else {
      hide Next;
      TakesOrKeeps(s, step);
      var key, t := s.live[step.action.id].key, Next(s, step);
      if t.log == s.log && t.pending == s.pending {
        SameAccount(s, t);
      } else {
        TakeIsAccounted(s, t, key, step.at);
      }
    }
  }

  lemma SameAccount(s: State, t: State)
    requires Accounted(s) && t.log == s.log && t.pending == s.pending
    ensures Accounted(t)
  {
  }

  lemma {:induction false} RunKeepsInv(s: State, steps: seq<Step>)
    requires Inv(s) && Admissible(s, steps)
    ensures Inv(Exec(s, steps))
    decreases |steps|
  {
    if steps != [] {
      SlotsKept(s, steps[0]);
      CoverKept(s, steps[0]);
      LogKept(s, steps[0]);
      RunKeepsInv(Next(s, steps[0]), steps[1..]);
    }
  }

  /** Over all interleavings, with flush callbacks that may raise: a pending
      payload has a live task that will look at it again, the payloads taken for
      a key are a subsequence of those offered, and when no task is left the
      last one taken is the last one offered. */
  lemma NothingIsLost(interval: real, steps: seq<Step>, key: string)
    requires Admissible(Fresh(interval), steps)
    ensures var s := Exec(Fresh(interval), steps);
            var offered, taken := Stores(s.log, key), Takes(s.log, key);
            && (key in s.pending ==> exists id :: Watches(s, id, key))
            && IsSubsequence(taken, offered)
            && (key in s.pending ==> offered != [] && s.pending[key] == offered[|offered| - 1])
            && (s.live == map[] && offered != [] ==>
                 taken != [] && taken[|taken| - 1] == offered[|offered| - 1])
  {
    RunKeepsInv(Fresh(interval), steps);
    TakesFollowStores(Exec(Fresh(interval), steps).log, key);
  }

  // ---- The cap on the rate ----

  /** Timers are accurate: the first sleep of a task never ends early. */
  ghost predicate OnTime(s: State, step: Step)
    requires Enabled(s, step)
  {
    step.action.Wake? ==> step.at >= s.live[step.action.id].phase.started + s.interval
  }

  /** No task of the key is in its second flush, and a first flush that is still
      awaited has already lasted the interval. */
  ghost predicate Timely(s: State, key: string, at: real) {
    forall id :: id in s.live && s.live[id].key == key ==>
      && !s.live[id].phase.FlushingAgain?
      && (s.live[id].phase.Flushing? ==> s.live[id].phase.takenAt + s.interval <= at)
  }

  /** A run with accurate timers in which every payload of the key is offered at a
      timely moment. The other keys do as they like. */
  ghost predicate TimelyRun(s: State, steps: seq<Step>, key: string): (timely: bool)
    ensures timely ==> Admissible(s, steps)
    decreases |steps|
  {
    steps == [] ||
    (&& Enabled(s, steps[0]) && OnTime(s, steps[0])
     && (steps[0].action.Offer? && steps[0].action.key == key ==> Timely(s, key, steps[0].at))
     && TimelyRun(Next(s, steps[0]), steps[1..], key))
  }

  ghost predicate TakenAt(log: seq<Event<Payload>>, key: string, at: real) {
    exists i :: 0 <= i < |log| && log[i].Taken? && log[i].key == key && log[i].at == at
  }

  /** Where the one task of a key stands, and what that says about its takes. */
  ghost predicate Cooling(s: State, key: string, id: nat)
    requires id in s.live
  {
    match s.live[id].phase
    case Created => key in s.slots && s.slots[key] == id
    case Sleeping(started) => key in s.slots && s.slots[key] == id && CoolAt(s.log, key, 0.0, started)
    case Flushing(started, takenAt) =>
      && key in s.slots && s.slots[key] == id
      && started + s.interval <= takenAt <= s.now
      && CoolAt(s.log, key, 0.0, takenAt) && TakenAt(s.log, key, takenAt)
      && (key in s.pending ==> takenAt + s.interval <= s.now)
    case Resting => false
    case FlushingAgain => key !in s.pending
  }

  ghost predicate Capped(s: State, key: string) {
    && s.interval > 0.0
    && SpacedFor(s.log, key, s.interval) && CoolAt(s.log, key, 0.0, s.now)
    && (forall i, j :: i in s.live && j in s.live && s.live[i].key == key && s.live[j].key == key ==> i == j)
    && (forall id :: id in s.live && s.live[id].key == key ==> Cooling(s, key, id))
  }

  /** The key that a step is about. */
  ghost function KeyOf(s: State, step: Step): string
    requires Enabled(s, step)
  {
    if step.action.Offer? then step.action.key else s.live[step.action.id].key
  }

  /** A step leaves all other keys alone. */
  lemma OtherKeysStay(s: State, step: Step, key: string)
    requires SlotsWatch(s) && Enabled(s, step) && KeyOf(s, step) != key
    ensures var t := Next(s, step);
            && t.interval == s.interval && t.now == step.at
            && (key in t.pending <==> key in s.pending)
            && (key in t.slots <==> key in s.slots) && (key in s.slots ==> t.slots[key] == s.slots[key])
  {
    hide SlotsWatch;
  }

  lemma OtherTasksStay(s: State, step: Step, key: string)
    requires SlotsWatch(s) && Enabled(s, step) && KeyOf(s, step) != key
    ensures var t := Next(s, step);
            && (forall id :: id in t.live && t.live[id].key == key <==> id in s.live && s.live[id].key == key)
            && (forall id :: id in s.live && s.live[id].key == key ==> t.live[id] == s.live[id])
  {
    TasksOfNext(s, step);
  }

  /** Only the stepping task and a new one change, and both serve the step's key. */
  lemma TasksOfNext(s: State, step: Step)
    requires Enabled(s, step) && s.nextId !in s.live
    ensures var t := Next(s, step);
            forall id ::
              if id == s.nextId || (!step.action.Offer? && id == step.action.id)
              then id in t.live ==> t.live[id].key == KeyOf(s, step)
              else (id in t.live <==> id in s.live) && (id in s.live ==> t.live[id] == s.live[id])
  {
  }

  lemma StepLogsItsKey(s: State, step: Step)
    requires Enabled(s, step)
    ensures var t := Next(s, step); t.log == s.log || exists e :: t.log == s.log + [e] && e.key == KeyOf(s, step)
  {
    var t := Next(s, step);
    assert t.log != s.log ==> t.log == s.log + [t.log[|s.log|]];
  }

  lemma OtherStepKeepsCap(s: State, step: Step, key: string)
    requires SlotsWatch(s) && Enabled(s, step) && KeyOf(s, step) != key && Capped(s, key)
    ensures Capped(Next(s, step), key)
  {
    hide Next, SlotsWatch, SpacedFor, CoolAt;
    OtherKeysStay(s, step, key);
    OtherTasksStay(s, step, key);
    StepLogsItsKey(s, step);
    var t := Next(s, step);
    if e :| t.log == s.log + [e] && e.key != key {
      OthersPaceFor(s.log, e, key, s.interval);
      StillTaken(s.log, e, key);
    }
    LaterIsCooler(t.log, key, s.now, t.now);
  }

  lemma StillTaken(log: seq<Event<Payload>>, e: Event<Payload>, key: string)
    ensures forall at :: TakenAt(log, key, at) ==> TakenAt(log + [e], key, at)
  {
    forall at | TakenAt(log, key, at)
      ensures TakenAt(log + [e], key, at)
    {
      var i :| 0 <= i < |log| && log[i].Taken? && log[i].key == key && log[i].at == at;
      assert (log + [e])[i] == log[i];
    }
  }

  lemma LaterIsCooler(log: seq<Event<Payload>>, key: string, limit: real, later: real)
    requires limit <= later
    ensures CoolAt(log, key, 0.0, limit) ==> CoolAt(log, key, 0.0, later)
    ensures forall gap :: gap <= later - limit && CoolAt(log, key, 0.0, limit) ==> CoolAt(log, key, gap, later)
  {
  }

  /** A take at least the interval after the latest one. */
  lemma TakeKeepsCap(s: State, key: string, limit: real, at: real)
    requires key in s.pending && Capped(s, key)
    requires CoolAt(s.log, key, 0.0, limit) && limit + s.interval <= at
    ensures var t := Take(s, key, at);
            SpacedFor(t.log, key, s.interval) && CoolAt(t.log, key, 0.0, at) && TakenAt(t.log, key, at)
  {
    hide SpacedFor, CoolAt;
    var e := Taken(key, s.pending[key], at);
    LaterIsCooler(s.log, key, limit, at);
    TakePacesFor(s.log, e, s.interval);
    assert (s.log + [e])[|s.log|] == e;
  }

  lemma OfferKeepsCap(s: State, step: Step, key: string)
    requires SlotsWatch(s) && Enabled(s, step) && Capped(s, key)
    requires step.action.Offer? && step.action.key == key && Timely(s, key, step.at)
    ensures Capped(Next(s, step), key)
  {
    hide SpacedFor, CoolAt;
    var e := Stored(key, step.action.payload);
    OthersPaceFor(s.log, e, key, s.interval);
    StillTaken(s.log, e, key);
    LaterIsCooler(s.log + [e], key, s.now, step.at);
  }

  lemma WakeKeepsCap(s: State, step: Step, key: string)
    requires SlotsWatch(s) && Enabled(s, step) && Capped(s, key) && step.action.Wake?
    requires s.live[step.action.id].key == key && OnTime(s, step)
    ensures Capped(Next(s, step), key)
  {
    hide SpacedFor, CoolAt, SlotsWatch;
    LaterIsCooler(s.log, key, s.now, step.at);
    if key in s.pending {
      TakeKeepsCap(s, key, s.live[step.action.id].phase.started, step.at);
    }
  }

  lemma FlushDoneKeepsCap(s: State, step: Step, key: string)
    requires SlotsWatch(s) && Enabled(s, step) && Capped(s, key) && step.action.FlushDone?
    requires s.live[step.action.id].key == key
    ensures Capped(Next(s, step), key)
  {
    hide SpacedFor, CoolAt, SlotsWatch;
    LaterIsCooler(s.log, key, s.now, step.at);
    if key in s.pending {
      TakeKeepsCap(s, key, s.live[step.action.id].phase.takenAt, step.at);
    }
  }

  lemma StepKeepsCap(s: State, step: Step, key: string)
    requires SlotsWatch(s) && Enabled(s, step) && OnTime(s, step) && Capped(s, key)
    requires step.action.Offer? && step.action.key == key ==> Timely(s, key, step.at)
    ensures Capped(Next(s, step), key)
  {
    hide SpacedFor, CoolAt, SlotsWatch;
    if KeyOf(s, step) != key {
      OtherStepKeepsCap(s, step, key);
    } else {
      LaterIsCooler(s.log, key, s.now, step.at);
      match step.action
      case Offer(_, _) => OfferKeepsCap(s, step, key);
      case Wake(_) => WakeKeepsCap(s, step, key);
      case FlushDone(_) => FlushDoneKeepsCap(s, step, key);
      case _ =>
    }
  }

  lemma {:induction false} TimelyRunKeepsCap(s: State, steps: seq<Step>, key: string)
    requires Inv(s) && Capped(s, key) && TimelyRun(s, steps, key)
    ensures Inv(Exec(s, steps)) && Capped(Exec(s, steps), key)
    decreases |steps|
  {
    hide Capped, Timely, SlotsWatch, Covered, Accounted;
    if steps != [] {
      SlotsKept(s, steps[0]);
      CoverKept(s, steps[0]);
      LogKept(s, steps[0]);
      StepKeepsCap(s, steps[0], key);
      TimelyRunKeepsCap(Next(s, steps[0]), steps[1..], key);
    }
  }

  lemma FreshIsCapped(interval: real, key: string)
    requires interval > 0.0
    ensures Inv(Fresh(interval)) && Capped(Fresh(interval), key)
  {
  }

  /** The cap over whole runs: with accurate timers and timely offers of a key any
      two of its payloads are taken at least the interval apart. */
  lemma TimelyOffersKeepCap(interval: real, steps: seq<Step>, key: string)
    requires interval > 0.0 && TimelyRun(Fresh(interval), steps, key)
    ensures SpacedFor(Exec(Fresh(interval), steps).log, key, interval)
  {
    hide TimelyRun, Timely, Inv;
    FreshIsCapped(interval, key);
    TimelyRunKeepsCap(Fresh(interval), steps, key);
    IntervalStays(Fresh(interval), steps);
  }

  lemma {:induction false} IntervalStays(s: State, steps: seq<Step>)
    requires Admissible(s, steps)
    ensures Exec(s, steps).interval == s.interval
    decreases |steps|
  {
    if steps != [] {
      IntervalStays(Next(s, steps[0]), steps[1..]);
    }
  }

  // An untimely offer can break the cap.

  lemma TimelyRunOf(steps: seq<Step>, s: State, key: string)
    requires steps != [] ==>
               && Enabled(s, steps[0]) && OnTime(s, steps[0])
               && (steps[0].action.Offer? && steps[0].action.key == key ==> Timely(s, key, steps[0].at))
               && TimelyRun(Next(s, steps[0]), steps[1..], key)
    ensures TimelyRun(s, steps, key)
    ensures Exec(s, steps) == if steps == [] then s else Exec(Next(s, steps[0]), steps[1..])
  {
  }

  lemma TooClose(log: seq<Event<Payload>>, key: string, gap: real, before: real, at: real, payload: Payload)
    requires TakenAt(log, key, before) && at < before + gap
    ensures !SpacedFor(log + [Taken(key, payload, at)], key, gap)
  {
    var i :| 0 <= i < |log| && log[i].Taken? && log[i].key == key && log[i].at == before;
    var more := log + [Taken(key, payload, at)];
    assert more[i] == log[i] && more[|log|].at == at;
  }

  /** An offer during a first flush: that flush may end at once. */
  lemma OfferDuringFlushBreaksCap(s: State, key: string, payload: Payload, at: real, id: nat) returns (rest: seq<Step>)
    requires Inv(s) && Capped(s, key) && at >= s.now
    requires id in s.live && s.live[id].key == key && s.live[id].phase.Flushing? && at < s.live[id].phase.takenAt + s.interval
    ensures var offered := Next(s, Step(Offer(key, payload), at));
            TimelyRun(offered, rest, key) && !SpacedFor(Exec(offered, rest).log, key, s.interval)
  {
    hide SpacedFor, CoolAt, Covered, Accounted;
    var offered := Next(s, Step(Offer(key, payload), at));
    assert Cooling(s, key, id);
    StillTaken(s.log, Stored(key, payload), key);
    var step := Step(FlushDone(id), at);
    TimelyRunOf([], Next(offered, step), key);
    TimelyRunOf([step], offered, key);
    assert [step][1..] == [];
    rest := [step];
    TooClose(offered.log, key, s.interval, s.live[id].phase.takenAt, at, payload);
  }

  /** Two sleeping tasks of one key: after the first has flushed and finished, a
      new payload is taken by the second at the same instant. */
  lemma TwoTasksBreakCap(s: State, key: string, a: nat, b: nat, payload: Payload) returns (rest: seq<Step>)
    requires SlotsWatch(s) && s.interval > 0.0 && key in s.pending && a != b
    requires a in s.live && s.live[a] == Task(key, Sleeping(s.now)) && b in s.live && s.live[b] == Task(key, Sleeping(s.now))
    requires forall id :: id in s.live && s.live[id].key == key ==> id == a || id == b
    ensures TimelyRun(s, rest, key) && !SpacedFor(Exec(s, rest).log, key, s.interval)
  {
    hide SpacedFor;
    var at := s.now + s.interval;
    var x1, x2, x3, x4 := Step(Wake(a), at), Step(FlushDone(a), at), Step(Offer(key, payload), at), Step(Wake(b), at);
    var s1 := Next(s, x1);
    var s2 := Next(s1, x2);
    assert s2.live == s1.live - {a} && s2.log == s1.log;
    var s3 := Next(s2, x3);
    assert s3.live[b] == s.live[b];
    var s4 := Next(s3, x4);
    TimelyRunOf([], s4, key);
    TimelyRunOf([x4], s3, key);
    TimelyRunOf([x3, x4], s2, key);
    TimelyRunOf([x2, x3, x4], s1, key);
    TimelyRunOf([x1, x2, x3, x4], s, key);
    rest := [x1, x2, x3, x4];
    assert s1.log[|s.log|] == Taken(key, s.pending[key], at);
    StillTaken(s2.log, Stored(key, payload), key);
    TooClose(s3.log, key, s.interval, at, at, payload);
  }

  lemma TwoNewTasksBreakCap(s: State, key: string, a: nat, b: nat, payload: Payload) returns (rest: seq<Step>)
    requires SlotsWatch(s) && s.interval > 0.0 && key in s.pending && a != b
    requires a in s.live && s.live[a] == Task(key, Created) && b in s.live && s.live[b] == Task(key, Created)
    requires forall id :: id in s.live && s.live[id].key == key ==> id == a || id == b
    ensures TimelyRun(s, rest, key) && !SpacedFor(Exec(s, rest).log, key, s.interval)
  {
    hide SpacedFor, SlotsWatch;
    var x1, x2 := Step(Begin(a), s.now), Step(Begin(b), s.now);
    var s1 := Next(s, x1);
    var s2 := Next(s1, x2);
    SuspendKeepsSlots(s, s1, a);
    SuspendKeepsSlots(s1, s2, b);
    var last := TwoTasksBreakCap(s2, key, a, b, payload);
    TimelyRunOf([x2] + last, s1, key);
    TimelyRunOf([x1] + ([x2] + last), s, key);
    rest := [x1] + ([x2] + last);
  }

  /** An offer during a second flush: its slot is free, so a task is created, and
      the flush creates another one. */
  lemma OfferDuringSecondFlushBreaksCap(s: State, key: string, payload: Payload, at: real, id: nat) returns (rest: seq<Step>)
    requires Inv(s) && Capped(s, key) && at >= s.now
    requires id in s.live && s.live[id].key == key && s.live[id].phase.FlushingAgain?
    ensures var offered := Next(s, Step(Offer(key, payload), at));
            TimelyRun(offered, rest, key) && !SpacedFor(Exec(offered, rest).log, key, s.interval)
  {
    hide SpacedFor, CoolAt, Covered, Accounted;
    var offer, done := Step(Offer(key, payload), at), Step(FlushAgainDone(id, false), at);
    assert key !in s.slots;
    var s0 := Next(s, offer);
    var s1 := Next(s0, done);
    SlotsKept(s, offer);
    CoverKept(s, offer);
    LogKept(s, offer);
    SlotsKept(s0, done);
    hide SlotsWatch;
    var last := TwoNewTasksBreakCap(s1, key, s.nextId, s.nextId + 1, payload);
    TimelyRunOf([done] + last, s0, key);
    rest := [done] + last;
  }

  /** Exactly when an offer is safe: after any run that has respected the cap, with
      accurate timers and timely offers of the key, the cap holds for everything
      that can follow, with timely offers again, if and only if the offer is
      timely, too: no second flush of the key is awaited, and no first flush that
      is younger than the interval. */
  lemma CapSurvivesOfferIff(interval: real, steps: seq<Step>, key: string, payload: Payload, at: real)
    requires interval > 0.0 && TimelyRun(Fresh(interval), steps, key)
    requires at >= Exec(Fresh(interval), steps).now
    ensures var s := Exec(Fresh(interval), steps);
            var offered := Next(s, Step(Offer(key, payload), at));
            Timely(s, key, at) <==>
            forall rest :: TimelyRun(offered, rest, key) ==> SpacedFor(Exec(offered, rest).log, key, interval)
  {
    hide TimelyRun, Timely, Capped, Inv, SpacedFor, Next;
    FreshIsCapped(interval, key);
    TimelyRunKeepsCap(Fresh(interval), steps, key);
    IntervalStays(Fresh(interval), steps);
    var s := Exec(Fresh(interval), steps);
    var offer := Step(Offer(key, payload), at);
    var offered := Next(s, offer);
    if Timely(s, key, at) {
      OfferKeepsAll(s, offer, key);
      forall rest | TimelyRun(offered, rest, key)
        ensures SpacedFor(Exec(offered, rest).log, key, interval)
      {
        TimelyRunKeepsCap(offered, rest, key);
        CapOf(Exec(offered, rest), key);
        IntervalStays(offered, rest);
      }
    } else {
      var rest := UntimelyOfferBreaksCap(s, key, payload, at);
    }
  }

  lemma CapOf(s: State, key: string)
    requires Capped(s, key)
    ensures SpacedFor(s.log, key, s.interval)
  {
  }

  lemma OfferKeepsAll(s: State, offer: Step, key: string)
    requires Inv(s) && Capped(s, key) && Enabled(s, offer) && offer.action.Offer? && offer.action.key == key
    requires Timely(s, key, offer.at)
    ensures Inv(Next(s, offer)) && Capped(Next(s, offer), key) && Next(s, offer).interval == s.interval
  {
    hide Timely, Capped;
    SlotsKept(s, offer);
    CoverKept(s, offer);
    LogKept(s, offer);
    OfferKeepsCap(s, offer, key);
  }

  lemma UntimelyOfferBreaksCap(s: State, key: string, payload: Payload, at: real) returns (rest: seq<Step>)
    requires Inv(s) && Capped(s, key) && at >= s.now && !Timely(s, key, at)
    ensures var offered := Next(s, Step(Offer(key, payload), at));
            TimelyRun(offered, rest, key) && !SpacedFor(Exec(offered, rest).log, key, s.interval)
  {
    hide TimelyRun, SpacedFor, Next, Inv, Capped;
    var id :| id in s.live && s.live[id].key == key
              && (s.live[id].phase.FlushingAgain?
                  || (s.live[id].phase.Flushing? && s.live[id].phase.takenAt + s.interval > at));
    if s.live[id].phase.FlushingAgain? {
      rest := OfferDuringSecondFlushBreaksCap(s, key, payload, at, id);
    } else {
      rest := OfferDuringFlushBreaksCap(s, key, payload, at, id);
    }
  }

  lemma RunOf(steps: seq<Step>, s: State)
    requires steps != [] ==> Enabled(s, steps[0]) && Admissible(Next(s, steps[0]), steps[1..])
    ensures Admissible(s, steps)
    ensures steps != [] ==> Exec(s, steps) == Exec(Next(s, steps[0]), steps[1..])
    ensures steps == [] ==> Exec(s, steps) == s
  {
  }

  ghost const FlushingTwice := State(
    0.1, map[], map[], map[0 := Task("k", FlushingAgain)], 1,
    [Stored("k", "a"), Taken("k", "a", 0.1), Stored("k", "b"), Taken("k", "b", 0.1)], 0.1)

  lemma OfferDuringSecondFlush()
    ensures var steps := [Step(Offer("k", "c"), 0.1), Step(FlushAgainDone(0, false), 0.1)];
            && Admissible(FlushingTwice, steps)
            && Exec(FlushingTwice, steps) == State(
                 0.1, map["k" := "c"], map["k" := 2], map[1 := Task("k", Created), 2 := Task("k", Created)], 3,
                 FlushingTwice.log + [Stored("k", "c")], 0.1)
  {
    var a0, a1 := Step(Offer("k", "c"), 0.1), Step(FlushAgainDone(0, false), 0.1);
    var s1 := Next(FlushingTwice, a0);
    var s2 := Next(s1, a1);
    RunOf([], s2);
    RunOf([a1], s1);
    RunOf([a0, a1], FlushingTwice);
  }

  /** A run that ends with two live tasks for one key, one slot overwritten,
      and two payloads of the key taken at the same instant. */
  lemma SlotsAreOverwrittenAndCapIsExceeded()
    ensures exists steps: seq<Step> ::
              && Admissible(Fresh(0.1), steps)
              && var s := Exec(Fresh(0.1), steps);
                 && s.live == map[1 := Task("k", Created), 2 := Task("k", Created)] && s.slots == map["k" := 2]
                 && s.log == [Stored("k", "a"), Taken("k", "a", 0.1), Stored("k", "b"), Taken("k", "b", 0.1), Stored("k", "c")]
  {
    var a0, a1, a2 := Step(Offer("k", "a"), 0.0), Step(Begin(0), 0.0), Step(Wake(0), 0.1);
    var a3, a4 := Step(Offer("k", "b"), 0.1), Step(FlushDone(0), 0.1);
    var rest := [Step(Offer("k", "c"), 0.1), Step(FlushAgainDone(0, false), 0.1)];
    var s1 := Next(Fresh(0.1), a0);
    var s2 := Next(s1, a1);
    var s3 := Next(s2, a2);
    assert s3 == State(0.1, map[], map["k" := 0], map[0 := Task("k", Flushing(0.0, 0.1))], 1,
                       [Stored("k", "a"), Taken("k", "a", 0.1)], 0.1);
    var s4 := Next(s3, a3);
    assert Next(s4, a4) == FlushingTwice;
    OfferDuringSecondFlush();
    RunOf([a4] + rest, s4);
    RunOf([a3] + ([a4] + rest), s3);
    RunOf([a2] + ([a3] + ([a4] + rest)), s2);
    RunOf([a1] + ([a2] + ([a3] + ([a4] + rest))), s1);
    RunOf([a0] + ([a1] + ([a2] + ([a3] + ([a4] + rest)))), Fresh(0.1));
  }

  class MonitorCoalescer {
    const interval: real
    var pending: map<string, Payload>
    var tasks: map<string, nat>
    var eventLoop: map<nat, Task> // suspended tasks; a finished one is absent
    var nextId: nat
    ghost var log: seq<Event<Payload>>
    ghost var clock: real

    ghost function Current(): State
      reads this
    {
      State(interval, pending, tasks, eventLoop, nextId, log, clock)
    }

    constructor (interval: real)
      ensures Current() == Fresh(if interval < 0.01 then 0.01 else interval)
    {
      this.interval := if interval < 0.01 then 0.01 else interval;
      pending, tasks, eventLoop, nextId, log, clock := map[], map[], map[], 0, [], 0.0;
    }

    /** `offer` without `immediate`. */
    method Offer(key: string, payload: Payload, now: real)
      requires now >= clock
      modifies this
      ensures Current() == Next(old(Current()), Step(Action.Offer(key, payload), now))
    {
      pending := pending[key := payload];
      log, clock := log + [Stored(key, payload)], now;
      if key in tasks && tasks[key] in eventLoop {
        return;
      }
      CreateTask(key);
    }

    method CreateTask(key: string)
      modifies `tasks, `eventLoop, `nextId
      ensures Current() == Spawn(old(Current()), key)
    {
      tasks := tasks[key := nextId];
      eventLoop := eventLoop[nextId := Task(key, Created)];
      nextId := nextId + 1;
    }

    method Begin(id: nat, now: real)
      requires now >= clock && id in eventLoop && eventLoop[id].phase.Created?
      modifies this
      ensures Current() == Next(old(Current()), Step(Action.Begin(id), now))
    {
      eventLoop := eventLoop[id := eventLoop[id].(phase := Sleeping(now))];
      clock := now;
    }

    method Wake(id: nat, now: real) returns (flushed: Option<Payload>)
      requires now >= clock && id in eventLoop && eventLoop[id].phase.Sleeping?
      modifies this
      ensures Current() == Next(old(Current()), Step(Action.Wake(id), now))
      ensures flushed == if old(eventLoop[id].key in pending) then Some(old(pending[eventLoop[id].key])) else None
    {
      var key, started := eventLoop[id].key, eventLoop[id].phase.started;
      clock := now;
      flushed := Pop(key, now);
      if flushed.Some? {
        eventLoop := eventLoop[id := Task(key, Flushing(started, now))];
      } else {
        var nothing := EnterFinally(id, started, now);
      }
    }

    method Pop(key: string, now: real) returns (payload: Option<Payload>)
      modifies `pending, `log
      ensures payload == if old(key in pending) then Some(old(pending[key])) else None
      ensures pending == old(pending) - {key}
      ensures log == if payload.Some? then old(log) + [Taken(key, payload.value, now)] else old(log)
    {
      if key !in pending {
        return None;
      }
      payload := Some(pending[key]);
      pending := pending - {key};
      log := log + [Taken(key, payload.value, now)];
    }

    method FlushDone(id: nat, now: real) returns (flushed: Option<Payload>)
      requires now >= clock && id in eventLoop && eventLoop[id].phase.Flushing?
      modifies this
      ensures Current() == Next(old(Current()), Step(Action.FlushDone(id), now))
    {
      clock := now;
      flushed := EnterFinally(id, eventLoop[id].phase.started, now);
    }

    method EnterFinally(id: nat, started: real, now: real) returns (flushed: Option<Payload>)
      requires id in eventLoop
      modifies `tasks, `eventLoop, `pending, `log
      ensures Current() == Finally(old(Current()), id, started, now)
    {
      var key := eventLoop[id].key;
      tasks := tasks - {key};
      var elapsed := now - started;
      if key !in pending {
        eventLoop := eventLoop - {id};
        return None;
      }
      var delay := if interval - elapsed > 0.0 then interval - elapsed else 0.0;
      if delay != 0.0 {
        eventLoop := eventLoop[id := Task(key, Resting)];
        return None;
      }
      flushed := LookAgain(id, now);
    }

    method LookAgain(id: nat, now: real) returns (flushed: Option<Payload>)
      requires id in eventLoop
      modifies `eventLoop, `pending, `log
      ensures Current() == SecondLook(old(Current()), id, now)
    {
      var key := eventLoop[id].key;
      flushed := Pop(key, now);
      if flushed.Some? {
        eventLoop := eventLoop[id := Task(key, FlushingAgain)];
      } else {
        assert pending == old(pending);
        eventLoop := eventLoop - {id};
      }
    }

    method WakeAgain(id: nat, now: real) returns (flushed: Option<Payload>)
      requires now >= clock && id in eventLoop && eventLoop[id].phase.Resting?
      modifies this
      ensures Current() == Next(old(Current()), Step(Action.WakeAgain(id), now))
    {
      clock := now;
      flushed := LookAgain(id, now);
    }

    method FlushAgainDone(id: nat, raised: bool, now: real)
      requires now >= clock && id in eventLoop && eventLoop[id].phase.FlushingAgain?
      modifies this
      ensures Current() == Next(old(Current()), Step(Action.FlushAgainDone(id, raised), now))
    {
      var key := eventLoop[id].key;
      clock := now;
      eventLoop := eventLoop - {id};
      if key in pending && !raised {
        CreateTask(key);
      }
    }
  }
}
