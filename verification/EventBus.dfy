/** `CoreEventBus`: queue, subscriptions and task sets, updated in place. */
module EventBus {
  import opened BusOrder
  import opened BusProtocol

  class CoreEventBus {
    const cfg: Config
    var queue: seq<Event>
    var subscriptions: seq<Subscription>
    var pending: seq<Task>
    var dlqTasks: seq<Task>
    ghost var owed: multiset<Pair>
    ghost var handled: multiset<Pair>
    ghost var persisted: multiset<Pair>
    ghost var lost: multiset<Pair>

    constructor (cfg: Config)
      ensures this.cfg == cfg && View() == Init()
    {
      this.cfg := cfg;
      queue, subscriptions, pending, dlqTasks := [], [], [], [];
      owed, handled, persisted, lost := multiset{}, multiset{}, multiset{}, multiset{};
    }

    ghost function View(): State
      reads this
    {
      State(queue, subscriptions, pending, dlqTasks, owed, handled, persisted, lost)
    }

    method PublishEvent(event: Event)
      requires Enabled(cfg, View(), Publish(event))
      modifies this`queue
      ensures View() == Apply(cfg, old(View()), Publish(event))
    {
      queue := queue + [event];
    }

    method AddSubscription(sub: Subscription)
      modifies this`subscriptions
      ensures View() == Apply(cfg, old(View()), Subscribe(sub))
    {
      subscriptions := subscriptions + [sub];
    }

    method DropSubscription(sub: Subscription)
      modifies this`subscriptions
      ensures View() == Apply(cfg, old(View()), Unsubscribe(sub))
    {
      subscriptions := RemoveFirst(subscriptions, sub);
    }

    /** One turn of the dispatch loop: an event goes to every subscription, without awaiting. */
    method DispatchNext()
      requires Enabled(cfg, View(), Dispatch)
      modifies this
      ensures View() == Apply(cfg, old(View()), Dispatch)
    {
      var event := queue[0];
      queue := queue[1..];
      ghost var start := View();
      assert subscriptions[0..] == subscriptions;
      var i := 0;
      while i < |subscriptions|
        invariant 0 <= i <= |subscriptions| && subscriptions == start.subscriptions
        invariant DispatchAll(cfg, View(), event, subscriptions[i..]) == DispatchAll(cfg, start, event, subscriptions)
      {
        assert subscriptions[i..][1..] == subscriptions[i + 1..];
        Deliver(event, subscriptions[i]);
        i := i + 1;
      }
    }

    /** The body of the loop: a task for the subscriber, or backpressure. */
    method Deliver(event: Event, sub: Subscription)
      modifies this`pending, this`dlqTasks, this`owed, this`lost
      ensures View() == DispatchOne(cfg, old(View()), event, sub)
    {
      if cfg.matches(event.topic, sub.pattern) {
        var pair := Pair(event, sub.callback);
        owed := owed + multiset{pair};
        if |pending| >= MAX_PENDING_TASKS {
          if cfg.hasDlq {
            ScheduleBackpressureDrop(pair);
          } else {
            lost := lost + multiset{pair};
          }
        } else {
          pending := pending + [Task(pair, Running)];
        }
      }
    }

    /** A dropped dispatch gets a task that saves it, unless there are too many of those. */
    method ScheduleBackpressureDrop(pair: Pair)
      modifies this`dlqTasks, this`lost
      ensures if |old(dlqTasks)| >= MAX_DLQ_TASKS then dlqTasks == old(dlqTasks) && lost == old(lost) + multiset{pair}
              else dlqTasks == old(dlqTasks) + [Task(pair, Enqueueing)] && lost == old(lost)
    {
      if |dlqTasks| >= MAX_DLQ_TASKS {
        lost := lost + multiset{pair};
        return;
      }
      dlqTasks := dlqTasks + [Task(pair, Enqueueing)];
    }

    /** `_safe_execute` when its subscriber has returned or raised. */
    method HandlerEnds(i: nat, raised: bool)
      requires InPhase(pending, i, Running)
      modifies this
      ensures View() == Apply(cfg, old(View()), if raised then HandlerRaises(i) else HandlerReturns(i))
    {
      var pair := pending[i].pair;
      if !raised {
        pending := Finish(pending, i, Finished);
        handled := handled + multiset{pair};
      } else if cfg.hasDlq {
        pending := Finish(pending, i, Enqueueing);
      } else {
        pending := Finish(pending, i, Finished);
        lost := lost + multiset{pair};
      }
    }

    /** A write to the dead letter queue ends, for a subscriber task or for a dropped dispatch. */
    method EnqueueEnds(i: nat, dropped: bool, ok: bool)
      requires InPhase(if dropped then dlqTasks else pending, i, Enqueueing)
      modifies this
      ensures View() == Apply(cfg, old(View()), if dropped then DlqEnqueueDone(i, ok) else EnqueueDone(i, ok))
    {
      var pair := if dropped then dlqTasks[i].pair else pending[i].pair;
      if dropped {
        dlqTasks := Finish(dlqTasks, i, Finished);
      } else {
        pending := Finish(pending, i, Finished);
      }
      if ok {
        persisted := persisted + multiset{pair};
      } else {
        lost := lost + multiset{pair};
      }
    }

    /** The done-callback of a finished task. */
    method DiscardTask(i: nat, dropped: bool)
      requires InPhase(if dropped then dlqTasks else pending, i, Finished)
      modifies this
      ensures View() == Apply(cfg, old(View()), if dropped then DlqDiscard(i) else Discard(i))
    {
      if dropped {
        dlqTasks := RemoveAt(dlqTasks, i);
      } else {
        pending := RemoveAt(pending, i);
      }
    }

    method Perform(a: Action)
      requires Enabled(cfg, View(), a)
      modifies this
      ensures View() == Apply(cfg, old(View()), a)
    {
      match a
      case Publish(event) => PublishEvent(event);
      case Subscribe(sub) => AddSubscription(sub);
      case Unsubscribe(sub) => DropSubscription(sub);
      case Dispatch => DispatchNext();
      case HandlerReturns(i) => HandlerEnds(i, false);
      case HandlerRaises(i) => HandlerEnds(i, true);
      case EnqueueDone(i, ok) => EnqueueEnds(i, false, ok);
      case Discard(i) => DiscardTask(i, false);
      case DlqEnqueueDone(i, ok) => EnqueueEnds(i, true, ok);
      case DlqDiscard(i) => DiscardTask(i, true);
    }

    /** Whatever the event loop schedules on a fresh bus, the books balance and the bounds hold. */
    method Run(schedule: seq<Action>)
      requires View() == Init() && IsRun(cfg, View(), schedule)
      modifies this
      ensures View() == Final(cfg, Init(), schedule)
      ensures Published(schedule) == Dispatched(cfg, Init(), schedule) + queue
      ensures subscriptions == InForce([], schedule)
      ensures |pending| <= 50 && |dlqTasks| <= 50
      ensures handled == Returned(cfg, Init(), schedule) && persisted == Written(cfg, Init(), schedule)
      ensures owed == handled + persisted + lost + InFlight(pending) + InFlight(dlqTasks)
      ensures owed == OwedBy(cfg, Init(), schedule)
      ensures lost == multiset{} <==> AllHarmless(cfg, Init(), schedule)
    {
      var i := 0;
      assert schedule[0..] == schedule;
      while i < |schedule|
        invariant 0 <= i <= |schedule|
        invariant IsRun(cfg, View(), schedule[i..])
        invariant Final(cfg, View(), schedule[i..]) == Final(cfg, old(View()), schedule)
      {
        assert schedule[i..][0] == schedule[i] && schedule[i..][1..] == schedule[i + 1..];
        Perform(schedule[i]);
        i := i + 1;
      }
      FirstInFirstOut(cfg, Init(), schedule);
      assert [] + Published(schedule) == Published(schedule);
      SubscriptionsInForce(cfg, Init(), schedule);
      HistoryIsWhatHappened(cfg, Init(), schedule);
      BusConserves(cfg, schedule);
      OwedIsMatched(cfg, Init(), schedule);
      WhenNothingIsLost(cfg, Init(), schedule);
    }
  }
}
