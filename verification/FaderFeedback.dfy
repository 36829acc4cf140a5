/** Inbound fader feedback: one flush task per path publishes the newest value
    15 times a second at most, and drops one that moved less than the deadband
    away from the value published last. */
module FaderFeedback {
  import opened Common
  import opened CoalescingLog
  import opened FlushTasks

  const PUBLISH_INTERVAL: real := 1.0 / 15.0
  const DEADBAND: real := 0.01
  const STAGES: nat := 1 // bus.publish

  /** `published` outlives the session; `log` tells everything that happened. */
  datatype State = State(book: Book<real>, published: map<string, real>, log: seq<Event<real>>, now: real, running: bool)

  datatype Action =
    | Receive(key: string, value: real)
    | Begin(id: nat)
    | Wake(id: nat)
    | EmitDone(id: nat)
    | Elapse // time passes; the rest of the adapter may have been at work

  datatype Step = Step(action: Action, at: real)

  ghost predicate Enabled(s: State, step: Step) {
    && step.at >= s.now
    && match step.action
       case Receive(_, _) => true
       case Elapse => true
       case Begin(id) => id in s.book.live && s.book.live[id].phase.Created?
       case Wake(id) => id in s.book.live && s.book.live[id].phase.Sleeping? && step.at >= s.book.live[id].phase.until
       case EmitDone(id) => id in s.book.live && s.book.live[id].phase == Busy(1)
  }

  ghost function Next(s: State, step: Step): State
    requires Enabled(s, step)
  {
    var t := s.(now := step.at);
    match step.action
    case Receive(k, v) => t.(book := Queue(s.book, k, v), log := s.log + [Stored(k, v)])
    case Begin(id) => t.(book := Suspend(s.book, id, Sleeping(step.at + PUBLISH_INTERVAL)))
    case Wake(id) =>
      var k := s.book.live[id].key;
      if s.running && k in s.book.pending then
        var v := s.book.pending[k];
        var taken := s.book.(pending := s.book.pending - {k});
        if k in s.published && Distance(v, s.published[k]) < DEADBAND then
          t.(book := Retire(taken, id, s.running), log := s.log + [Taken(k, v, step.at)])
        else
          t.(book := Suspend(taken, id, Busy(1)), published := s.published[k := v],
             log := s.log + [Taken(k, v, step.at)] + [Published(k, v)])
      else
        t.(book := Retire(s.book, id, s.running))
    case EmitDone(id) => t.(book := Retire(s.book, id, s.running))
    case Elapse => t
  }

  const Fresh := State(Book(map[], map[], map[], 0), map[], [], 0.0, true)

  ghost predicate Admissible(s: State, steps: seq<Step>)
    decreases |steps|
  {
    steps == [] || (Enabled(s, steps[0]) && Admissible(Next(s, steps[0]), steps[1..]))
  }

  ghost function Exec(s: State, steps: seq<Step>): State
    requires Admissible(s, steps)
    decreases |steps|
  {
    if steps == [] then s else Exec(Next(s, steps[0]), steps[1..])
  }

  /** Values published for `key`, oldest first. */
  ghost function Publications(log: seq<Event<real>>, key: string): seq<real> {
    if log == [] then []
    else
      var last, older := log[|log| - 1], Publications(log[..|log| - 1], key);
      if last.Published? && last.key == key then older + [last.value] else older
  }

  ghost predicate Apart(values: seq<real>) {
    forall i :: 0 <= i < |values| - 1 ==> Distance(values[i], values[i + 1]) >= DEADBAND
  }

  ghost predicate Accounted(s: State) {
    && (forall k :: Owed(s.log, k) == if k in s.book.pending then Some(s.book.pending[k]) else None)
    && (forall k :: k in s.book.pending ==> k in s.book.slots)
    && Faithful(s.log)
  }

  /** The last published value is on record, and the last value taken for a key
      is within the deadband of it. */
  ghost predicate Tracking(s: State, key: string) {
    OnTrack(Publications(s.log, key), Takes(s.log, key), if key in s.published then Some(s.published[key]) else None)
  }

  ghost predicate OnTrack(p: seq<real>, t: seq<real>, last: Option<real>) {
    && Apart(p)
    && IsSubsequence(p, t)
    && last == (if p == [] then None else Some(p[|p| - 1]))
    && (t != [] ==> p != [] && Distance(t[|t| - 1], p[|p| - 1]) < DEADBAND)
  }

  /** A value is published unless it is close to the last one. */
  lemma TakeKeepsTrack(p: seq<real>, t: seq<real>, last: Option<real>, v: real)
    requires OnTrack(p, t, last)
    ensures if last.Some? && Distance(v, last.value) < DEADBAND then OnTrack(p, t + [v], last)
            else OnTrack(p + [v], t + [v], Some(v))
  {
    SubsequenceExtend(p, t, v);
  }

  /** No task can wake up too early after the newest take of its path. */
  ghost predicate Paced(s: State) {
    && Spaced(s.log, PUBLISH_INTERVAL)
    && (forall i :: 0 <= i < |s.log| && s.log[i].Taken? ==> s.log[i].at <= s.now)
    && (forall id :: id in s.book.live && s.book.live[id].phase.Sleeping? ==>
         CoolAt(s.log, s.book.live[id].key, PUBLISH_INTERVAL, s.book.live[id].phase.until))
  }

  ghost predicate Inv(s: State) {
    && s.running
    && OneTaskPerKey(s.book) && WaitingTasksHaveWork(s.book)
    && Accounted(s)
    && Paced(s)
    && (forall k :: Tracking(s, k))
  }

  lemma PublicationsAppend(log: seq<Event<real>>, e: Event<real>, k: string)
    ensures Publications(log + [e], k) ==
            if e.Published? && e.key == k then Publications(log, k) + [e.value] else Publications(log, k)
  {
    assert (log + [e])[..|log|] == log;
  }

  lemma TasksKept(s: State, step: Step)
    requires Inv(s) && Enabled(s, step)
    ensures var b := Next(s, step).book;
            OneTaskPerKey(b) && WaitingTasksHaveWork(b) && (forall k :: k in b.pending ==> k in b.slots)
  {
    hide Tracking, Owed, Faithful;
    match step.action {
      case Receive(k, v) =>
        hide Schedule;
        ScheduleKeeps(s.book.(pending := s.book.pending[k := v]), k);
      case Elapse =>
      case Begin(id) =>
      case Wake(id) =>
        WakeKeepsTasks(s, id, step.at);
      case EmitDone(id) =>
        hide Retire;
        RetireKeeps(s.book, id, true);
        RetireKeepsPending(s.book, id, true);
    }
  }

  lemma WakeKeepsTasks(s: State, id: nat, at: real)
    requires s.running && OneTaskPerKey(s.book) && WaitingTasksHaveWork(s.book) && Enabled(s, Step(Wake(id), at))
    requires forall k :: k in s.book.pending ==> k in s.book.slots
    ensures var b := Next(s, Step(Wake(id), at)).book;
            OneTaskPerKey(b) && WaitingTasksHaveWork(b) && (forall k :: k in b.pending ==> k in b.slots)
  {
    hide Retire;
    var key := s.book.live[id].key;
    var taken := s.book.(pending := s.book.pending - {key});
    var asBusy := Suspend(taken, id, Busy(1));
    assert OneTaskPerKey(asBusy) && WaitingTasksHaveWork(asBusy);
    RetireKeeps(asBusy, id, true);
    RetireKeepsPending(taken, id, true);
    SameRetirement(taken, id, Busy(1));
  }

  lemma RetireKeepsPending(b: Book<real>, id: nat, reschedule: bool)
    requires id in b.live
    ensures Retire(b, id, reschedule).pending == b.pending
  {
  }

  lemma SameRetirement(b: Book<real>, id: nat, phase: Phase)
    requires id in b.live
    ensures Retire(Suspend(b, id, phase), id, true) == Retire(b, id, true)
  {
    assert Suspend(b, id, phase).live - {id} == b.live - {id};
  }

  lemma LogKept(s: State, step: Step)
    requires Inv(s) && Enabled(s, step)
    ensures Faithful(Next(s, step).log)
  {
    hide Retire, Suspend, Queue, OneTaskPerKey, Tracking, Owed, Faithful;
    match step.action {
      case Receive(k, v) =>
        FaithfulAppend(s.log, Stored(k, v));
      case Wake(id) =>
        var k := s.book.live[id].key;
        var e := Taken(k, s.book.pending[k], step.at);
        FaithfulAppend(s.log, e);
        FaithfulAppend(s.log + [e], Published(k, s.book.pending[k]));
      case _ =>
    }
  }

  lemma KeyKept(s: State, step: Step, key: string)
    requires Inv(s) && Enabled(s, step)
    ensures var t := Next(s, step);
            && Tracking(t, key)
            && Owed(t.log, key) == if key in t.book.pending then Some(t.book.pending[key]) else None
  {
    hide Retire, Owed, Takes, Publications, OnTrack;
    assert Tracking(s, key);
    match step.action {
      case Receive(k, v) =>
        OwedAppend(s.log, Stored(k, v));
        TakesAppend(s.log, Stored(k, v), key);
        PublicationsAppend(s.log, Stored(k, v), key);
      case Wake(id) =>
        WakeKeepsKey(s, step, key);
      case EmitDone(id) =>
        RetireKeepsPending(s.book, id, true);
      case _ =>
    }
  }

  lemma WakeKeepsKey(s: State, step: Step, key: string)
    requires s.running && Enabled(s, step) && step.action.Wake? && Tracking(s, key)
    requires Owed(s.log, key) == if key in s.book.pending then Some(s.book.pending[key]) else None
    ensures var t := Next(s, step);
            && Tracking(t, key)
            && Owed(t.log, key) == if key in t.book.pending then Some(t.book.pending[key]) else None
  {
    hide Retire, Owed, Takes, Publications, OnTrack, Distance;
    var id := step.action.id;
    var k := s.book.live[id].key;
    var taken := s.book.(pending := s.book.pending - {k});
    RetireKeepsPending(taken, id, true);
    RetireKeepsPending(s.book, id, true);
    if k in s.book.pending {
      var v := s.book.pending[k];
      var e := Taken(k, v, step.at);
      OwedAppend(s.log, e);
      TakesAppend(s.log, e, key);
      PublicationsAppend(s.log, e, key);
      OwedAppend(s.log + [e], Published(k, v));
      TakesAppend(s.log + [e], Published(k, v), key);
      PublicationsAppend(s.log + [e], Published(k, v), key);
      if k == key {
        TakeKeepsTrack(Publications(s.log, key), Takes(s.log, key),
                       if key in s.published then Some(s.published[key]) else None, v);
      }
    }
  }

  lemma PacedKept(s: State, step: Step)
    requires Inv(s) && Enabled(s, step)
    ensures Paced(Next(s, step))
  {
    hide Tracking, Owed, Faithful;
    match step.action {
      case Receive(k, v) =>
        hide Schedule;
        ScheduleKeeps(s.book.(pending := s.book.pending[k := v]), k);
        OtherEventPaces(s.log, Stored(k, v), PUBLISH_INTERVAL);
      case Wake(id) =>
        WakePaces(s, step);
      case EmitDone(id) =>
        hide Retire;
        RetireKeeps(s.book, id, true);
      case _ =>
    }
  }

  lemma WakePaces(s: State, step: Step)
    requires s.running && Enabled(s, step) && step.action.Wake?
    requires OneTaskPerKey(s.book) && WaitingTasksHaveWork(s.book) && Paced(s)
    ensures Paced(Next(s, step))
  {
    var id := step.action.id;
    var key := s.book.live[id].key;
    var v := s.book.pending[key];
    var taken := s.book.(pending := s.book.pending - {key});
    var e := Taken(key, v, step.at);
    TakePaces(s.log, e, PUBLISH_INTERVAL);
    OtherEventPaces(s.log + [e], Published(key, v), PUBLISH_INTERVAL);
    RetireKeepsOthers(taken, id);
  }

  lemma RetireKeepsOthers(b: Book<real>, id: nat)
    requires id in b.live && b.live[id].key !in b.pending
    ensures Retire(b, id, true).live == b.live - {id}
  {
  }

  lemma StepKeepsInv(s: State, step: Step)
    requires Inv(s) && Enabled(s, step)
    ensures Inv(Next(s, step))
  {
    TasksKept(s, step);
    LogKept(s, step);
    PacedKept(s, step);
    var t := Next(s, step);
    forall k
      ensures Tracking(t, k)
      ensures Owed(t.log, k) == if k in t.book.pending then Some(t.book.pending[k]) else None
    {
      KeyKept(s, step, k);
    }
  }

  lemma {:induction false} RunKeepsInv(s: State, steps: seq<Step>)
    requires Inv(s) && Admissible(s, steps)
    ensures Inv(Exec(s, steps))
    decreases |steps|
  {
    if steps != [] {
      StepKeepsInv(s, steps[0]);
      RunKeepsInv(Next(s, steps[0]), steps[1..]);
    }
  }

  lemma FreshInv()
    ensures Inv(Fresh)
  {
  }

  /** In every interleaving successive publications of a path are at least the
      deadband apart and are a subsequence of the values received, and the takes
      that they come from are 1/15 s apart or more; once nothing
      is pending for the path, the last publication is within the deadband of
      the last value received, so the drops never add up to a drift. */
  lemma FeedbackNeverDrifts(steps: seq<Step>, key: string)
    requires Admissible(Fresh, steps)
    ensures var s := Exec(Fresh, steps);
            var published, received := Publications(s.log, key), Stores(s.log, key);
            && (forall i :: 0 <= i < |published| - 1 ==>
                 published[i + 1] - published[i] >= 0.01 || published[i] - published[i + 1] >= 0.01)
            && IsSubsequence(published, Takes(s.log, key)) && IsSubsequence(Takes(s.log, key), received)
            && IsSubsequence(published, received)
            && Spaced(s.log, 1.0 / 15.0)
            && (key in s.book.pending ==> exists id :: id in s.book.live && s.book.live[id].key == key)
            && (key !in s.book.pending && received != [] ==>
                 && published != []
                 && -0.01 < received[|received| - 1] - published[|published| - 1] < 0.01)
  {
    hide Stores, Takes, Publications, Owed, Faithful, IsSubsequence, Exec, Admissible, WaitingTasksHaveWork;
    assert Inv(Fresh) by { FreshInv(); }
    RunKeepsInv(Fresh, steps);
    var s := Exec(Fresh, steps);
    assert Tracking(s, key);
    TakesFollowStores(s.log, key);
    SubsequenceTransitive(Publications(s.log, key), Takes(s.log, key), Stores(s.log, key));
    if key in s.book.pending {
      assert s.book.slots[key] in s.book.live;
    }
  }
}
