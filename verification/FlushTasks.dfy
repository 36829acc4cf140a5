/** The book-keeping shared by the two fader coalescers of the Wing adapter: a
    `pending` map of newest values, a `slots` map with the flush task of each
    key, and the tasks the event loop still holds. A task leaves its slot in its
    `finally` block and re-creates one for a value stored while it was busy.
    Whatever runs between two `await`s is one atomic step. */
module FlushTasks {

  /** Where a flush task is suspended: not started yet, in its throttling
      sleep, or awaiting the last `stages` calls before its `finally` block. */
  datatype Phase = Created | Sleeping(until: real) | Busy(stages: nat)

  datatype Task = Task(key: string, phase: Phase)

  datatype Book<V> = Book(pending: map<string, V>, slots: map<string, nat>, live: map<nat, Task>, nextId: nat)

  /** Creates a flush task for `key` unless its slot holds one that is not done. */
  ghost function Schedule<V>(b: Book<V>, key: string): Book<V> {
    if key in b.slots && b.slots[key] in b.live then b
    else b.(slots := b.slots[key := b.nextId],
            live := b.live[b.nextId := Task(key, Created)],
            nextId := b.nextId + 1)
  }

  /** Stores the newest value for `key` and makes sure a task will flush it. */
  ghost function Queue<V>(b: Book<V>, key: string, value: V): Book<V> {
    Schedule(b.(pending := b.pending[key := value]), key)
  }

  ghost function Suspend<V>(b: Book<V>, id: nat, phase: Phase): Book<V>
    requires id in b.live
  {
    b.(live := b.live[id := b.live[id].(phase := phase)])
  }

  /** The last step of a task: it leaves its slot and is done; `reschedule` tells
      whether it still gets to flush what arrived in the meantime. */
  ghost function Retire<V>(b: Book<V>, id: nat, reschedule: bool): Book<V>
    requires id in b.live
  {
    var key := b.live[id].key;
    var left := b.(slots := b.slots - {key}, live := b.live - {id});
    if reschedule && key in left.pending then Schedule(left, key) else left
  }

  /** Slots and live tasks correspond one to one, so a key has at most one task. */
  ghost predicate OneTaskPerKey<V>(b: Book<V>) {
    && (forall k :: k in b.slots ==> b.slots[k] in b.live && b.live[b.slots[k]].key == k)
    && (forall id :: id in b.live ==>
         id < b.nextId && b.live[id].key in b.slots && b.slots[b.live[id].key] == id)
  }

  /** Only a task's own pop takes its key's value, so a task that has not got
      there yet always has one to take. */
  ghost predicate WaitingTasksHaveWork<V>(b: Book<V>) {
    forall id :: id in b.live && !b.live[id].phase.Busy? ==> b.live[id].key in b.pending
  }

  /** The number of steps the tasks of `key` can still take before the key is
      idle, if nothing more is stored for it (`stages` awaits follow the pop). */
  ghost function Remaining<V>(b: Book<V>, key: string, stages: nat): nat {
    if key !in b.slots || b.slots[key] !in b.live then 0
    else match b.live[b.slots[key]].phase
      case Created => stages + 2
      case Sleeping(_) => stages + 1
      case Busy(n) => n + if key in b.pending then stages + 2 else 0
  }

  lemma ScheduleKeeps<V>(b: Book<V>, key: string)
    requires OneTaskPerKey(b)
    requires forall id :: id in b.live && !b.live[id].phase.Busy? ==> b.live[id].key in b.pending
    requires key in b.pending
    ensures OneTaskPerKey(Schedule(b, key)) && WaitingTasksHaveWork(Schedule(b, key))
    ensures key in Schedule(b, key).slots
    ensures forall k :: k in b.slots ==> k in Schedule(b, key).slots
    ensures forall id :: id in Schedule(b, key).live ==>
              (id in b.live && Schedule(b, key).live[id] == b.live[id]) || Schedule(b, key).live[id] == Task(key, Created)
  {
  }

  lemma RetireKeeps<V>(b: Book<V>, id: nat, reschedule: bool)
    requires OneTaskPerKey(b) && WaitingTasksHaveWork(b) && id in b.live
    ensures var after := Retire(b, id, reschedule);
            && OneTaskPerKey(after) && WaitingTasksHaveWork(after)
            && (b.live[id].key in after.slots <==> reschedule && b.live[id].key in b.pending)
            && (forall k :: k != b.live[id].key ==> (k in after.slots <==> k in b.slots))
            && (forall i :: i in after.live ==>
                 (i in b.live && after.live[i] == b.live[i]) || after.live[i] == Task(b.live[id].key, Created))
  {
    var key := b.live[id].key;
    var left := b.(slots := b.slots - {key}, live := b.live - {id});
    assert OneTaskPerKey(left);
    if reschedule && key in left.pending {
      ScheduleKeeps(left, key);
    }
  }
}
