/** The adapter object itself. Each method is the code between two `await`s of
    one of its coroutines; the tasks that the event loop holds suspended are kept
    in `sendLoop` and `flushLoop`, where a finished task is absent. A step of one
    direction only advances the clock of the other (its `Elapse` step). */
module WingNative {
  import opened Common
  import opened CoalescingLog
  import opened FlushTasks
  import Out = FaderSend
  import In = FaderFeedback

  class WingNativeAdapter {
    var running: bool
    var connected: bool
    var pendingFaderSends: map<string, Out.PendingFaderSend>
    var faderSendTasks: map<string, nat>
    var sendLoop: map<nat, Task>
    var nextSend: nat
    var pendingFaderFeedback: map<string, real>
    var faderFlushTasks: map<string, nat>
    var flushLoop: map<nat, Task>
    var nextFlush: nat
    var lastPublishedFader: map<string, real>
    ghost var sendLog: seq<Event<Out.PendingFaderSend>>
    ghost var feedbackLog: seq<Event<real>>
    ghost var clock: real

    ghost function Sending(): Out.State
      reads this
    {
      Out.State(Book(pendingFaderSends, faderSendTasks, sendLoop, nextSend), sendLog, clock, running, connected)
    }

    ghost function Receiving(): In.State
      reads this
    {
      In.State(Book(pendingFaderFeedback, faderFlushTasks, flushLoop, nextFlush), lastPublishedFader, feedbackLog, clock, running)
    }

    constructor ()
      ensures Sending() == Out.Fresh
      ensures Receiving() == In.Fresh
    {
      running, connected, clock := true, true, 0.0;
      pendingFaderSends, faderSendTasks, sendLoop, nextSend, sendLog := map[], map[], map[], 0, [];
      pendingFaderFeedback, faderFlushTasks, flushLoop, nextFlush, feedbackLog := map[], map[], map[], 0, [];
      lastPublishedFader := map[];
    }

    /** The fader branch of `send`, after the path has been resolved. */
    method StoreFader(address: string, nodeId: int, wireValue: real, raw: bool, displayValue: real, target: string, now: real)
      requires now >= clock
      modifies this
      ensures var value := Out.PendingFaderSend(nodeId, wireValue, raw, displayValue, target);
              Sending() == Out.Next(old(Sending()), Out.Step(Out.Store(address, value), now))
      ensures Receiving() == old(Receiving()).(now := now)
    {
      var value := Out.PendingFaderSend(nodeId, wireValue, raw, displayValue, target);
      pendingFaderSends := pendingFaderSends[address := value];
      ScheduleFaderSend(address);
      sendLog, clock := sendLog + [Stored(address, value)], now;
    }

    method ScheduleFaderSend(address: string)
      modifies `faderSendTasks, `sendLoop, `nextSend
      ensures Sending().book == Schedule(old(Sending().book), address)
      ensures Receiving() == old(Receiving())
    {
      if address in faderSendTasks && faderSendTasks[address] in sendLoop {
        return;
      }
      faderSendTasks := faderSendTasks[address := nextSend];
      sendLoop := sendLoop[nextSend := Task(address, Created)];
      nextSend := nextSend + 1;
    }

    method BeginFaderSend(id: nat, now: real)
      requires now >= clock && id in sendLoop && sendLoop[id].phase.Created?
      modifies this
      ensures Sending() == Out.Next(old(Sending()), Out.Step(Out.Begin(id), now))
      ensures Receiving() == old(Receiving()).(now := now)
    {
      sendLoop := sendLoop[id := sendLoop[id].(phase := Sleeping(now + Out.SEND_INTERVAL))];
      clock := now;
    }

    /** After the throttling sleep: take the newest value and start `set_float`. */
    method WakeFaderSend(id: nat, now: real) returns (sent: Option<Out.PendingFaderSend>)
      requires now >= clock && id in sendLoop && sendLoop[id].phase.Sleeping? && now >= sendLoop[id].phase.until
      modifies this
      ensures Sending() == Out.Next(old(Sending()), Out.Step(Out.Wake(id), now))
      ensures sent == if running && connected && old(sendLoop[id].key in pendingFaderSends)
                      then Some(old(pendingFaderSends[sendLoop[id].key])) else None
      ensures Receiving() == old(Receiving()).(now := now)
    {
      var address := sendLoop[id].key;
      clock := now;
      if !running || !connected || address !in pendingFaderSends {
        FinishFaderSend(id, true);
        return None;
      }
      sent := Some(pendingFaderSends[address]);
      pendingFaderSends := pendingFaderSends - {address};
      sendLoop := sendLoop[id := sendLoop[id].(phase := Busy(2))];
      sendLog := sendLog + [Taken(address, sent.value, now)];
    }

    /** `set_float` has returned, or has raised. */
    method FaderSendDone(id: nat, raised: bool, now: real)
      requires now >= clock && id in sendLoop && sendLoop[id].phase == Busy(2)
      modifies this
      ensures Sending() == Out.Next(old(Sending()), Out.Step(if raised then Out.SendFail(id) else Out.SendOk(id), now))
      ensures Receiving() == old(Receiving()).(now := now)
    {
      clock := now;
      if raised {
        sendLog := sendLog + [Failed(sendLoop[id].key)];
        FinishFaderSend(id, true);
      } else {
        sendLoop := sendLoop[id := sendLoop[id].(phase := Busy(1))];
      }
    }

    method FaderPublishDone(id: nat, now: real)
      requires now >= clock && id in sendLoop && sendLoop[id].phase == Busy(1)
      modifies this
      ensures Sending() == Out.Next(old(Sending()), Out.Step(Out.PublishDone(id), now))
      ensures Receiving() == old(Receiving()).(now := now)
    {
      clock := now;
      FinishFaderSend(id, false);
    }

    /** The `finally` block, and the reschedule behind it, which an exception or a
        `return` inside the `try` never reaches. */
    method FinishFaderSend(id: nat, leaving: bool)
      requires id in sendLoop
      modifies `faderSendTasks, `sendLoop, `nextSend
      ensures Sending().book == Retire(old(Sending().book), id, running && !leaving)
      ensures Receiving() == old(Receiving())
    {
      var address := sendLoop[id].key;
      faderSendTasks := faderSendTasks - {address};
      var reschedule := address in pendingFaderSends && running;
      sendLoop := sendLoop - {id};
      if reschedule && !leaving {
        ScheduleFaderSend(address);
      }
    }

    method QueueFaderFeedback(path: string, value: real, now: real)
      requires now >= clock
      modifies this
      ensures Receiving() == In.Next(old(Receiving()), In.Step(In.Receive(path, value), now))
      ensures Sending() == old(Sending()).(now := now)
    {
      pendingFaderFeedback := pendingFaderFeedback[path := value];
      feedbackLog, clock := feedbackLog + [Stored(path, value)], now;
      if path in faderFlushTasks && faderFlushTasks[path] in flushLoop {
        return;
      }
      CreateFlushTask(path);
    }

    method CreateFlushTask(path: string)
      modifies `faderFlushTasks, `flushLoop, `nextFlush
      ensures faderFlushTasks == old(faderFlushTasks)[path := old(nextFlush)]
      ensures flushLoop == old(flushLoop)[old(nextFlush) := Task(path, Created)]
      ensures nextFlush == old(nextFlush) + 1
      ensures Sending() == old(Sending())
    {
      faderFlushTasks := faderFlushTasks[path := nextFlush];
      flushLoop := flushLoop[nextFlush := Task(path, Created)];
      nextFlush := nextFlush + 1;
    }

    method BeginFaderFlush(id: nat, now: real)
      requires now >= clock && id in flushLoop && flushLoop[id].phase.Created?
      modifies this
      ensures Receiving() == In.Next(old(Receiving()), In.Step(In.Begin(id), now))
      ensures Sending() == old(Sending()).(now := now)
    {
      flushLoop := flushLoop[id := flushLoop[id].(phase := Sleeping(now + In.PUBLISH_INTERVAL))];
      clock := now;
    }

    /** After the throttling sleep: publish the newest value, or drop it. */
    method WakeFaderFlush(id: nat, now: real) returns (published: Option<real>)
      requires now >= clock && id in flushLoop && flushLoop[id].phase.Sleeping? && now >= flushLoop[id].phase.until
      modifies `pendingFaderFeedback, `faderFlushTasks, `flushLoop, `nextFlush, `lastPublishedFader, `feedbackLog, `clock
      ensures Receiving() == In.Next(old(Receiving()), In.Step(In.Wake(id), now))
      ensures published ==
              if running && old(flushLoop[id].key in pendingFaderFeedback)
                 && !(old(flushLoop[id].key in lastPublishedFader
                          && -0.01 < pendingFaderFeedback[flushLoop[id].key] - lastPublishedFader[flushLoop[id].key] < 0.01))
              then Some(old(pendingFaderFeedback[flushLoop[id].key])) else None
      ensures published.Some? ==> lastPublishedFader == old(lastPublishedFader)[old(flushLoop[id].key) := published.value]
      ensures published.None? ==> lastPublishedFader == old(lastPublishedFader)
      ensures Sending() == old(Sending()).(now := now)
    {
      hide Retire, Distance;
      var path := flushLoop[id].key;
      clock := now;
      if !running || path !in pendingFaderFeedback {
        FinishFaderFlush(id);
        return None;
      }
      var value := pendingFaderFeedback[path];
      pendingFaderFeedback := pendingFaderFeedback - {path};
      feedbackLog := feedbackLog + [Taken(path, value, now)];
      ghost var taken := Receiving().book;
      published := PublishUnlessClose(path, value);
      assert Receiving().book == taken;
      if published.None? {
        FinishFaderFlush(id);
        assert Receiving().book == Retire(taken, id, running);
      } else {
        flushLoop := flushLoop[id := flushLoop[id].(phase := Busy(1))];
        assert Receiving().book == Suspend(taken, id, Busy(1));
      }
    }

    /** The deadband test against the value published last. */
    method PublishUnlessClose(path: string, value: real) returns (published: Option<real>)
      modifies `lastPublishedFader, `feedbackLog
      ensures var close := path in old(lastPublishedFader) && -0.01 < value - old(lastPublishedFader[path]) < 0.01;
              && published == (if close then None else Some(value))
              && lastPublishedFader == (if close then old(lastPublishedFader) else old(lastPublishedFader)[path := value])
              && feedbackLog == (if close then old(feedbackLog) else old(feedbackLog) + [Published(path, value)])
      ensures Sending() == old(Sending())
    {
      if path in lastPublishedFader && Distance(value, lastPublishedFader[path]) < In.DEADBAND {
        return None;
      }
      lastPublishedFader := lastPublishedFader[path := value];
      feedbackLog := feedbackLog + [Published(path, value)];
      published := Some(value);
    }

    method FeedbackEmitDone(id: nat, now: real)
      requires now >= clock && id in flushLoop && flushLoop[id].phase == Busy(1)
      modifies this
      ensures Receiving() == In.Next(old(Receiving()), In.Step(In.EmitDone(id), now))
      ensures Sending() == old(Sending()).(now := now)
    {
      clock := now;
      FinishFaderFlush(id);
    }

    method FinishFaderFlush(id: nat)
      requires id in flushLoop
      modifies `faderFlushTasks, `flushLoop, `nextFlush
      ensures Receiving().book == Retire(old(Receiving().book), id, running)
      ensures Sending() == old(Sending())
    {
      var path := flushLoop[id].key;
      faderFlushTasks := faderFlushTasks - {path};
      flushLoop := flushLoop - {id};
      if path in pendingFaderFeedback && running {
        CreateFlushTask(path);
      }
    }
  }
}
