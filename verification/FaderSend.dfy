/** Outbound faders: at most one flush task per address sends the newest value,
    60 times a second at most. The state machine has one step per stretch of
    code between two `await`s, so a run is an arbitrary interleaving. */
module FaderSend {
  import opened Common
  import opened CoalescingLog
  import opened FlushTasks

  const SEND_INTERVAL: real := 1.0 / 60.0
  const STAGES: nat := 2 // set_float, then bus.publish

  datatype PendingFaderSend = PendingFaderSend(
    nodeId: int, wireValue: real, raw: bool, displayValue: real, target: string)

  type Send = PendingFaderSend

  /** `running` and `connected` (there is a client) hold still during a session. */
  datatype State = State(book: Book<Send>, log: seq<Event<Send>>, now: real, running: bool, connected: bool)

  datatype Action =
    | Store(key: string, value: Send)
    | Begin(id: nat)
    | Wake(id: nat)
    | SendOk(id: nat)
    | SendFail(id: nat)
    | PublishDone(id: nat)
    | Elapse // time passes; the rest of the adapter may have been at work
  {
    ghost predicate ByTask() { !Store? && !Elapse? }
  }

  datatype Step = Step(action: Action, at: real)

  ghost predicate Enabled(s: State, step: Step) {
    && step.at >= s.now
    && match step.action
       case Store(_, _) => true
       case Elapse => true
       case Begin(id) => id in s.book.live && s.book.live[id].phase.Created?
       case Wake(id) => id in s.book.live && s.book.live[id].phase.Sleeping? && step.at >= s.book.live[id].phase.until
       case SendOk(id) => id in s.book.live && s.book.live[id].phase == Busy(2)
       case SendFail(id) => id in s.book.live && s.book.live[id].phase == Busy(2)
       case PublishDone(id) => id in s.book.live && s.book.live[id].phase == Busy(1)
  }

  ghost function Next(s: State, step: Step): State
    requires Enabled(s, step)
  {
    var t := s.(now := step.at);
    match step.action
    case Store(k, v) => t.(book := Queue(s.book, k, v), log := s.log + [Stored(k, v)])
    case Begin(id) => t.(book := Suspend(s.book, id, Sleeping(step.at + SEND_INTERVAL)))
    case Wake(id) =>
      var k := s.book.live[id].key;
      if s.running && s.connected && k in s.book.pending then
        var taken := s.book.(pending := s.book.pending - {k});
        t.(book := Suspend(taken, id, Busy(2)), log := s.log + [Taken(k, s.book.pending[k], step.at)])
      else // returns inside the `try`, so the reschedule behind `finally` is skipped
        t.(book := Retire(s.book, id, false))
    case SendOk(id) => t.(book := Suspend(s.book, id, Busy(1)))
    case SendFail(id) =>
      t.(book := Retire(s.book, id, false), log := s.log + [Failed(s.book.live[id].key)])
    case PublishDone(id) => t.(book := Retire(s.book, id, s.running))
    case Elapse => t
  }

  const Fresh := State(Book(map[], map[], map[], 0), [], 0.0, true, true)

  ghost predicate Admissible(s: State, steps: seq<Step>)
    decreases |steps|
  {
    steps == [] || (Enabled(s, steps[0]) && Admissible(Next(s, steps[0]), steps[1..]))
  }

  ghost function Exec(s: State, steps: seq<Step>): State
    requires Admissible(s, steps)
    decreases |steps|
  {
    if steps == [] then s else Exec(Next(s, steps[0]), steps[1..])
  }

  /** The newest entry about `key` is a send that raised. */
  ghost predicate Stranded(log: seq<Event<Send>>, key: string) {
    log != [] && var last := log[|log| - 1];
      if last.key == key then last.Failed? else Stranded(log[..|log| - 1], key)
  }

  lemma StrandedAppend(log: seq<Event<Send>>, e: Event<Send>)
    ensures forall k {:trigger Stranded(log + [e], k)} ::
              Stranded(log + [e], k) == if e.key == k then e.Failed? else Stranded(log, k)
  {
    assert (log + [e])[..|log|] == log;
  }

  /** Pending holds exactly what is owed, and somebody is there to send it
      unless the newest send for that address raised. */
  ghost predicate Accounted(s: State) {
    && (forall k :: Owed(s.log, k) == if k in s.book.pending then Some(s.book.pending[k]) else None)
    && (forall k :: k in s.book.pending && k !in s.book.slots ==> Stranded(s.log, k))
    && (forall k :: k in s.book.slots ==> !Stranded(s.log, k))
    && Faithful(s.log)
  }

  /** No task can wake up too early after the newest send for its address. */
  ghost predicate Paced(s: State) {
    && Spaced(s.log, SEND_INTERVAL)
    && (forall i :: 0 <= i < |s.log| && s.log[i].Taken? ==> s.log[i].at <= s.now)
    && (forall id :: id in s.book.live && s.book.live[id].phase.Sleeping? ==>
         CoolAt(s.log, s.book.live[id].key, SEND_INTERVAL, s.book.live[id].phase.until))
  }

  ghost predicate StagesInRange(b: Book<Send>) {
    forall id :: id in b.live && b.live[id].phase.Busy? ==> b.live[id].phase.stages <= STAGES
  }

  ghost predicate Inv(s: State) {
    && s.running && s.connected
    && OneTaskPerKey(s.book) && WaitingTasksHaveWork(s.book)
    && Accounted(s)
    && Paced(s)
    && StagesInRange(s.book)
  }

  lemma TasksKept(s: State, step: Step)
    requires Inv(s) && Enabled(s, step)
    ensures OneTaskPerKey(Next(s, step).book) && WaitingTasksHaveWork(Next(s, step).book)
  {
    match step.action {
      case Store(k, v) => ScheduleKeeps(s.book.(pending := s.book.pending[k := v]), k);
      case SendFail(id) => RetireKeeps(s.book, id, false);
      case PublishDone(id) => RetireKeeps(s.book, id, true);
      case _ =>
    }
  }

  lemma AccountedKept(s: State, step: Step)
    requires Inv(s) && Enabled(s, step)
    ensures Accounted(Next(s, step))
  {
    match step.action {
      case Store(k, v) =>
        ScheduleKeeps(s.book.(pending := s.book.pending[k := v]), k);
        FaithfulAppend(s.log, Stored(k, v));
        OwedAppend(s.log, Stored(k, v));
        StrandedAppend(s.log, Stored(k, v));
      case Wake(id) =>
        var k := s.book.live[id].key;
        var e := Taken(k, s.book.pending[k], step.at);
        FaithfulAppend(s.log, e);
        OwedAppend(s.log, e);
        StrandedAppend(s.log, e);
      case SendFail(id) =>
        RetireKeeps(s.book, id, false);
        var e := Failed(s.book.live[id].key);
        FaithfulAppend(s.log, e);
        OwedAppend(s.log, e);
        StrandedAppend(s.log, e);
      case PublishDone(id) =>
        RetireKeeps(s.book, id, true);
      case _ =>
    }
  }

  lemma PacedKept(s: State, step: Step)
    requires Inv(s) && Enabled(s, step)
    ensures Paced(Next(s, step))
  {
    match step.action {
      case Store(k, v) =>
        ScheduleKeeps(s.book.(pending := s.book.pending[k := v]), k);
        OtherEventPaces(s.log, Stored(k, v), SEND_INTERVAL);
      case SendFail(id) =>
        RetireKeeps(s.book, id, false);
        OtherEventPaces(s.log, Failed(s.book.live[id].key), SEND_INTERVAL);
      case PublishDone(id) =>
        RetireKeeps(s.book, id, true);
      case Wake(id) =>
        WakePaces(s, step);
      case _ =>
    }
  }

  lemma WakePaces(s: State, step: Step)
    requires Inv(s) && Enabled(s, step) && step.action.Wake?
    ensures Paced(Next(s, step))
  {
    var t, id := Next(s, step), step.action.id;
    var key := s.book.live[id].key;
    TakePaces(s.log, Taken(key, s.book.pending[key], step.at), SEND_INTERVAL);
    assert forall i :: i in t.book.live && t.book.live[i].phase.Sleeping? ==>
                         i != id && t.book.live[i] == s.book.live[i] && s.book.live[i].key != key;
  }

  lemma StagesKept(s: State, step: Step)
    requires Inv(s) && Enabled(s, step)
    ensures StagesInRange(Next(s, step).book)
  {
  }

  lemma StepKeepsInv(s: State, step: Step)
    requires Inv(s) && Enabled(s, step)
    ensures Inv(Next(s, step))
  {
    TasksKept(s, step);
    AccountedKept(s, step);
    PacedKept(s, step);
    StagesKept(s, step);
  }

  lemma {:induction false} RunKeepsInv(s: State, steps: seq<Step>)
    requires Inv(s) && Admissible(s, steps)
    ensures Inv(Exec(s, steps))
    decreases |steps|
  {
    if steps != [] {
      StepKeepsInv(s, steps[0]);
      RunKeepsInv(Next(s, steps[0]), steps[1..]);
    }
  }

  /** Over every interleaving the sends of an address follow the order in which
      the values were stored, each hands over the newest value of its moment,
      and they start at least 1/60 s apart. */
  lemma SendsFollowStoresAndAreThrottled(steps: seq<Step>, key: string)
    requires Admissible(Fresh, steps)
    ensures var s := Exec(Fresh, steps);
            && IsSubsequence(Takes(s.log, key), Stores(s.log, key))
            && Spaced(s.log, 1.0 / 60.0)
            && (forall j :: 0 <= j < |s.log| && s.log[j].Taken? ==>
                 exists i :: 0 <= i < j && s.log[i] == Stored(s.log[j].key, s.log[j].value)
                   && forall m :: i < m < j && s.log[m].key == s.log[j].key ==> !s.log[m].Stored? && !s.log[m].Taken?)
  {
    RunKeepsInv(Fresh, steps);
    var s := Exec(Fresh, steps);
    TakesFollowStores(s.log, key);
    forall j | 0 <= j < |s.log| && s.log[j].Taken?
      ensures exists i :: 0 <= i < j && s.log[i] == Stored(s.log[j].key, s.log[j].value)
                && forall m :: i < m < j && s.log[m].key == s.log[j].key ==> !s.log[m].Stored? && !s.log[m].Taken?
    {
      TakenIsLatestStored(s.log, j);
    }
  }

  ghost predicate ServedBy(s: State, key: string, id: nat) {
    id in s.book.live && s.book.live[id].key == key
  }

  /** A pending value has exactly one task that can still send it, unless the
      newest send for its address raised; two tasks never serve one address. */
  lemma PendingValueHasOneTask(steps: seq<Step>, key: string)
    requires Admissible(Fresh, steps)
    ensures var s := Exec(Fresh, steps);
            && (key in s.book.pending ==> ((exists id :: ServedBy(s, key, id)) <==> !Stranded(s.log, key)))
            && (forall i, j :: ServedBy(s, key, i) && ServedBy(s, key, j) ==> i == j)
  {
    RunKeepsInv(Fresh, steps);
    var s := Exec(Fresh, steps);
    if key in s.book.slots {
      assert ServedBy(s, key, s.book.slots[key]);
    }
  }

  /** When no task is left, the newest value sent for an address is the newest
      one stored, or else the newest send for that address raised. */
  lemma QuiescentMeansDelivered(steps: seq<Step>, key: string)
    requires Admissible(Fresh, steps)
    requires Exec(Fresh, steps).book.live == map[]
    ensures var log := Exec(Fresh, steps).log;
            && (Owed(log, key).Some? ==> Stranded(log, key))
            && (!Stranded(log, key) && Stores(log, key) != [] ==>
                 && Takes(log, key) != []
                 && Takes(log, key)[|Takes(log, key)| - 1] == Stores(log, key)[|Stores(log, key)| - 1])
  {
    RunKeepsInv(Fresh, steps);
    TakesFollowStores(Exec(Fresh, steps).log, key);
  }

  /** `set_float` raising skips the reschedule: the step leaves a value behind
      with no task to send it exactly when one was stored while it was awaited. */
  lemma FailedSendStrandsIff(s: State, step: Step)
    requires Inv(s) && Enabled(s, step) && step.action.SendFail?
    ensures var t, key := Next(s, step), s.book.live[step.action.id].key;
            (key in t.book.pending && !(exists id :: ServedBy(t, key, id))) <==> key in s.book.pending
  {
    RetireKeeps(s.book, step.action.id, false);
  }

  /** The next store for that address puts a task back. */
  lemma StoreRecovers(s: State, step: Step)
    requires Inv(s) && Enabled(s, step) && step.action.Store?
    ensures exists id :: ServedBy(Next(s, step), step.action.key, id)
    ensures !Stranded(Next(s, step).log, step.action.key)
  {
    AccountedKept(s, step);
    var t, k := Next(s, step), step.action.key;
    assert k in t.book.slots;
    assert ServedBy(t, k, t.book.slots[k]);
  }

  const Raised := PendingFaderSend(7, 0.5, false, 0.5, "wing.fader")

  /** A run in which the value stored during a raising send is never sent. */
  lemma StrandedRunExists()
    ensures exists steps: seq<Step> ::
              && Admissible(Fresh, steps)
              && var s := Exec(Fresh, steps);
                 s.book.live == map[] && "/ch/1/fdr" in s.book.pending
  {
    var k := "/ch/1/fdr";
    var a0, a1, a2 := Step(Store(k, Raised), 0.0), Step(Begin(0), 0.0), Step(Wake(0), 1.0);
    var a3, a4 := Step(Store(k, Raised), 1.0), Step(SendFail(0), 2.0);
    var s1 := Next(Fresh, a0);
    var s2 := Next(s1, a1);
    var s3 := Next(s2, a2);
    var s4 := Next(s3, a3);
    var s5 := Next(s4, a4);
    assert s5.book.live == map[];
    RunOf([], s5);
    RunOf([a4], s4);
    RunOf([a3, a4], s3);
    RunOf([a2, a3, a4], s2);
    RunOf([a1, a2, a3, a4], s1);
    RunOf([a0, a1, a2, a3, a4], Fresh);
  }

  lemma RunOf(steps: seq<Step>, s: State)
    requires steps != [] ==> Enabled(s, steps[0]) && Admissible(Next(s, steps[0]), steps[1..])
    ensures Admissible(s, steps)
    ensures steps != [] ==> Exec(s, steps) == Exec(Next(s, steps[0]), steps[1..])
    ensures steps == [] ==> Exec(s, steps) == s
  {
  }

  /** Steps in which a task of `key` takes part. */
  ghost function OwnSteps(s: State, steps: seq<Step>, key: string): nat
    requires Admissible(s, steps)
    decreases |steps|
  {
    if steps == [] then 0
    else
      var a := steps[0].action;
      (if a.ByTask() && s.book.live[a.id].key == key then 1 else 0)
      + OwnSteps(Next(s, steps[0]), steps[1..], key)
  }

  lemma RemainingDrops(s: State, step: Step, key: string)
    requires Inv(s) && Enabled(s, step)
    requires step.action.Store? ==> step.action.key != key
    ensures Remaining(Next(s, step).book, key, STAGES)
            + (if step.action.ByTask() && s.book.live[step.action.id].key == key then 1 else 0)
            <= Remaining(s.book, key, STAGES)
  {
    match step.action {
      case Store(k, v) => ScheduleKeeps(s.book.(pending := s.book.pending[k := v]), k);
      case SendFail(id) => RetireKeeps(s.book, id, false);
      case PublishDone(id) => RetireKeeps(s.book, id, true);
      case _ =>
    }
  }

  /** Once nothing more is stored for an address its tasks come to rest: each of
      their steps uses up one of at most six that remain, so sends cannot be put
      off for ever. */
  lemma {:induction false} DrainsInBoundedSteps(s: State, steps: seq<Step>, key: string)
    requires Inv(s) && Admissible(s, steps)
    requires forall i :: 0 <= i < |steps| && steps[i].action.Store? ==> steps[i].action.key != key
    ensures OwnSteps(s, steps, key) + Remaining(Exec(s, steps).book, key, STAGES) <= Remaining(s.book, key, STAGES) <= 6
    decreases |steps|
  {
    if steps != [] {
      StepKeepsInv(s, steps[0]);
      RemainingDrops(s, steps[0], key);
      DrainsInBoundedSteps(Next(s, steps[0]), steps[1..], key);
    }
  }
}
