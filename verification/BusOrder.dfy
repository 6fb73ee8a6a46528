/** What becomes of each event, subscription and delivery, in terms of what was done to the bus. */
module BusOrder {
  import opened BusProtocol
  import opened Folds

  // ------------------------------------------------------------------ events

  /** The events published in the run, in order. */
  function Published(run: seq<Action>): seq<Event> {
    if run == [] then [] else (if run[0].Publish? then [run[0].event] else []) + Published(run[1..])
  }

  /** The events that the dispatch loop took from the queue, in order. */
  function Dispatched(cfg: Config, s: State, run: seq<Action>): seq<Event>
    requires IsRun(cfg, s, run)
    decreases run
  {
    if run == [] then []
    else (if run[0].Dispatch? then [s.queue[0]] else []) + Dispatched(cfg, Apply(cfg, s, run[0]), run[1..])
  }

  /** Dispatching an event to its subscribers leaves the queue and the subscriptions alone. */
  lemma {:induction false} DispatchKeepsQueue(cfg: Config, s: State, e: Event, subs: seq<Subscription>)
    ensures var t := DispatchAll(cfg, s, e, subs); t.queue == s.queue && t.subscriptions == s.subscriptions
    decreases subs
  {
    if subs != [] {
      DispatchKeepsQueue(cfg, DispatchOne(cfg, s, e, subs[0]), e, subs[1..]);
    }
  }

  /** A publication goes to the back of the queue, a dispatch takes the front, nothing else touches it. */
  lemma StepQueue(cfg: Config, s: State, a: Action)
    requires Enabled(cfg, s, a)
    ensures var t := Apply(cfg, s, a);
            && (a.Publish? ==> t.queue == s.queue + [a.event])
            && (a.Dispatch? ==> s.queue == [s.queue[0]] + t.queue)
            && (!a.Publish? && !a.Dispatch? ==> t.queue == s.queue)
  {
    if a.Dispatch? {
      DispatchKeepsQueue(cfg, s.(queue := s.queue[1..]), s.queue[0], s.subscriptions);
    }
  }

  lemma Regroup(before: seq<Event>, put: seq<Event>, got: seq<Event>, after: seq<Event>,
                published: seq<Event>, dispatched: seq<Event>, end: seq<Event>)
    requires before + put == got + after && after + published == dispatched + end
    ensures before + (put + published) == (got + dispatched) + end
  {
    assert before + (put + published) == (before + put) + published;
    assert (got + after) + published == got + (after + published);
    assert got + (dispatched + end) == (got + dispatched) + end;
  }

  /** First in, first out: what was queued and published is what was dispatched and is still queued. */
  lemma {:induction false} FirstInFirstOut(cfg: Config, s: State, run: seq<Action>)
    requires IsRun(cfg, s, run)
    ensures s.queue + Published(run) == Dispatched(cfg, s, run) + Final(cfg, s, run).queue
    decreases run
  {
    if run == [] {
      assert s.queue + [] == [] + s.queue;
    } else {
      var t := Apply(cfg, s, run[0]);
      var put := if run[0].Publish? then [run[0].event] else [];
      var got := if run[0].Dispatch? then [s.queue[0]] else [];
      FirstInFirstOut(cfg, t, run[1..]);
      StepQueue(cfg, s, run[0]);
      Regroup(s.queue, put, got, t.queue, Published(run[1..]), Dispatched(cfg, t, run[1..]),
              Final(cfg, t, run[1..]).queue);
    }
  }

  /** A bounded queue never holds more, and a publisher waits only for a full one. */
  lemma {:induction false} QueueIsBounded(cfg: Config, s: State, run: seq<Action>, e: Event)
    requires IsRun(cfg, s, run) && (cfg.maxQueueSize > 0 ==> |s.queue| <= cfg.maxQueueSize)
    ensures var t := Final(cfg, s, run);
            && (cfg.maxQueueSize > 0 ==> |t.queue| <= cfg.maxQueueSize)
            && (!Enabled(cfg, t, Publish(e)) <==> cfg.maxQueueSize > 0 && |t.queue| == cfg.maxQueueSize)
    decreases run
  {
    if run != [] {
      if run[0].Dispatch? {
        DispatchKeepsQueue(cfg, s.(queue := s.queue[1..]), s.queue[0], s.subscriptions);
      }
      QueueIsBounded(cfg, Apply(cfg, s, run[0]), run[1..], e);
    }
  }

  // ------------------------------------------------------------------ subscriptions

  function FirstIndex(subs: seq<Subscription>, x: Subscription): (k: nat)
    requires x in subs
    ensures k < |subs| && subs[k] == x && x !in subs[..k]
  {
    if subs[0] == x then 0
    else
      var k := FirstIndex(subs[1..], x);
      assert subs[..k + 1] == [subs[0]] + subs[1..][..k];
      k + 1
  }

  lemma {:induction false} RemovesFirst(subs: seq<Subscription>, x: Subscription)
    ensures x !in subs ==> RemoveFirst(subs, x) == subs
    ensures x in subs ==>
              RemoveFirst(subs, x) == subs[..FirstIndex(subs, x)] + subs[FirstIndex(subs, x) + 1..]
  {
    if subs != [] && subs[0] != x {
      RemovesFirst(subs[1..], x);
      assert subs == [subs[0]] + subs[1..];
      if x in subs {
        var k := FirstIndex(subs[1..], x);
        assert subs[..k + 1] == [subs[0]] + subs[1..][..k] && subs[k + 2..] == subs[1..][k + 1..];
      }
    }
  }

  /** The subscriptions that these actions leave in force. */
  function InForce(subs: seq<Subscription>, run: seq<Action>): seq<Subscription>
    decreases run
  {
    if run == [] then subs
    else
      var x := if run[0].Subscribe? || run[0].Unsubscribe? then run[0].subscription else Subscription("", 0);
      if run[0].Subscribe? then InForce(subs + [x], run[1..])
      else if run[0].Unsubscribe? && x in subs then
        InForce(subs[..FirstIndex(subs, x)] + subs[FirstIndex(subs, x) + 1..], run[1..])
      else InForce(subs, run[1..])
  }

  lemma {:induction false} SubscriptionsInForce(cfg: Config, s: State, run: seq<Action>)
    requires IsRun(cfg, s, run)
    ensures Final(cfg, s, run).subscriptions == InForce(s.subscriptions, run)
    decreases run
  {
    if run != [] {
      if run[0].Unsubscribe? {
        RemovesFirst(s.subscriptions, run[0].subscription);
      } else if run[0].Dispatch? {
        DispatchKeepsQueue(cfg, s.(queue := s.queue[1..]), s.queue[0], s.subscriptions);
      }
      SubscriptionsInForce(cfg, Apply(cfg, s, run[0]), run[1..]);
    }
  }

  /** The deliveries of an event: one for each subscription whose pattern its topic matches, in order. */
  lemma {:induction false} MatchesInOrder(cfg: Config, e: Event, subs: seq<Subscription>, x: Subscription)
    ensures Matching(cfg, e, subs + [x])
            == Matching(cfg, e, subs) + if cfg.matches(e.topic, x.pattern) then [Pair(e, x.callback)] else []
    ensures Matching(cfg, e, []) == []
  {
    if subs == [] {
      assert [] + [x] == [x];
    } else {
      assert (subs + [x])[1..] == subs[1..] + [x];
      MatchesInOrder(cfg, e, subs[1..], x);
    }
  }

  // ------------------------------------------------------------------ deliveries

  lemma CountsInFull(cfg: Config, s: State, n: nat, a: nat, b: nat)
    requires if |s.pending| + n <= 50 then a == n else if |s.pending| <= 50 then a == 50 - |s.pending| else a == 0
    requires if !cfg.hasDlq then b == a
             else if |s.dlqTasks| + (n - a) <= 50 then b == n
             else if |s.dlqTasks| <= 50 then b == a + 50 - |s.dlqTasks| else b == a
    ensures a == RunCount(s, n) && b == SaveCount(cfg, s, n) && a <= b <= n
  {
  }

  /**
   A dispatch runs subscribers while fewer than 50 are pending, then saves deliveries while fewer
   than 50 are being saved, and loses the rest.
   */
  lemma DispatchInFull(cfg: Config, s: State, a: nat, b: nat)
    requires Enabled(cfg, s, Dispatch)
    requires var n := |Matching(cfg, s.queue[0], s.subscriptions)|;
             && (if |s.pending| + n <= 50 then a == n else if |s.pending| <= 50 then a == 50 - |s.pending| else a == 0)
             && (if !cfg.hasDlq then b == a
                 else if |s.dlqTasks| + (n - a) <= 50 then b == n
                 else if |s.dlqTasks| <= 50 then b == a + 50 - |s.dlqTasks| else b == a)
    ensures var m := Matching(cfg, s.queue[0], s.subscriptions); var t := Apply(cfg, s, Dispatch);
            && a <= b <= |m|
            && t.pending == s.pending + Tasks(m[..a], Running)
            && t.dlqTasks == s.dlqTasks + Tasks(m[a..b], Enqueueing)
            && t.lost == s.lost + multiset(m[b..])
            && t.handled == s.handled && t.persisted == s.persisted
  {
    var taken := s.(queue := s.queue[1..]);
    var m := Matching(cfg, s.queue[0], s.subscriptions);
    CountsInFull(cfg, taken, |m|, a, b);
    DispatchDeals(cfg, taken, s.queue[0], s.subscriptions);
    DealtIs(cfg, taken, m, a, b);
  }

  /** The deliveries whose subscriber returned in the run. */
  function Returned(cfg: Config, s: State, run: seq<Action>): multiset<Pair>
    requires IsRun(cfg, s, run)
    decreases run
  {
    if run == [] then multiset{}
    else
      (if run[0].HandlerReturns? then multiset{s.pending[run[0].task].pair} else multiset{})
      + Returned(cfg, Apply(cfg, s, run[0]), run[1..])
  }

  /** The deliveries whose write to the dead letter queue succeeded in the run. */
  function Written(cfg: Config, s: State, run: seq<Action>): multiset<Pair>
    requires IsRun(cfg, s, run)
    decreases run
  {
    if run == [] then multiset{}
    else
      (if run[0] == EnqueueDone(TaskOf(run[0]), true) then multiset{s.pending[run[0].task].pair}
       else if run[0] == DlqEnqueueDone(TaskOf(run[0]), true) then multiset{s.dlqTasks[run[0].task].pair}
       else multiset{})
      + Written(cfg, Apply(cfg, s, run[0]), run[1..])
  }

  function TaskOf(a: Action): nat { if a.EnqueueDone? || a.DlqEnqueueDone? then a.task else 0 }

  lemma {:induction false} DispatchHandlesNothing(cfg: Config, s: State, e: Event, subs: seq<Subscription>)
    ensures var t := DispatchAll(cfg, s, e, subs); t.handled == s.handled && t.persisted == s.persisted
    decreases subs
  {
    if subs != [] {
      DispatchHandlesNothing(cfg, DispatchOne(cfg, s, e, subs[0]), e, subs[1..]);
    }
  }

  /** Handled means that the subscriber returned, persisted that a write succeeded. */
  lemma {:induction false} HistoryIsWhatHappened(cfg: Config, s: State, run: seq<Action>)
    requires IsRun(cfg, s, run)
    ensures Final(cfg, s, run).handled == s.handled + Returned(cfg, s, run)
    ensures Final(cfg, s, run).persisted == s.persisted + Written(cfg, s, run)
    decreases run
  {
    if run != [] {
      if run[0].Dispatch? {
        DispatchHandlesNothing(cfg, s.(queue := s.queue[1..]), s.queue[0], s.subscriptions);
      }
      HistoryIsWhatHappened(cfg, Apply(cfg, s, run[0]), run[1..]);
    }
  }

  // ------------------------------------------------------------------ tasks end

  /** The steps that a task has before it, at most: its subscriber, a write, the done-callback. */
  function StepsLeft(t: Task): nat {
    match t.phase
    case Running => 3
    case Enqueueing => 2
    case Finished => 1
  }

  function AllSteps(s: State): nat { SumBy(s.pending, StepsLeft) + SumBy(s.dlqTasks, StepsLeft) }

  predicate OfTask(a: Action) { !a.Publish? && !a.Subscribe? && !a.Unsubscribe? && !a.Dispatch? }

  lemma SubscriberStep(cfg: Config, s: State, a: Action)
    requires Enabled(cfg, s, a) && (a.HandlerReturns? || a.HandlerRaises? || a.EnqueueDone?)
    ensures AllSteps(Apply(cfg, s, a)) < AllSteps(s)
  {
    SumByUpdate(s.pending, StepsLeft, a.task, Apply(cfg, s, a).pending[a.task]);
  }

  lemma StepUsesStep(cfg: Config, s: State, a: Action)
    requires Enabled(cfg, s, a) && OfTask(a)
    ensures AllSteps(Apply(cfg, s, a)) < AllSteps(s)
  {
    match a
    case Discard(i) => SumByRemove(s.pending, StepsLeft, i);
    case DlqDiscard(i) => SumByRemove(s.dlqTasks, StepsLeft, i);
    case DlqEnqueueDone(i, _) => SumByUpdate(s.dlqTasks, StepsLeft, i, Apply(cfg, s, a).dlqTasks[i]);
    case HandlerReturns(_) => SubscriberStep(cfg, s, a);
    case HandlerRaises(_) => SubscriberStep(cfg, s, a);
    case EnqueueDone(_, _) => SubscriberStep(cfg, s, a);
  }

  lemma {:induction false} StepsAreFew(tasks: seq<Task>)
    ensures SumBy(tasks, StepsLeft) <= 3 * |tasks|
  {
    if tasks != [] {
      StepsAreFew(tasks[1..]);
    }
  }

  lemma {:induction false} RunUsesSteps(cfg: Config, s: State, run: seq<Action>)
    requires IsRun(cfg, s, run) && forall i :: 0 <= i < |run| ==> OfTask(run[i])
    ensures |run| + AllSteps(Final(cfg, s, run)) <= AllSteps(s)
    decreases run
  {
    if run != [] {
      StepUsesStep(cfg, s, run[0]);
      RunUsesSteps(cfg, Apply(cfg, s, run[0]), run[1..]);
    }
  }

  /** No subscriber runs in a task that saves a dropped dispatch. */
  predicate OnlySaves(s: State) {
    forall i :: 0 <= i < |s.dlqTasks| ==> !s.dlqTasks[i].phase.Running?
  }

  lemma {:induction false} DispatchOnlySaves(cfg: Config, s: State, e: Event, subs: seq<Subscription>)
    requires OnlySaves(s)
    ensures OnlySaves(DispatchAll(cfg, s, e, subs))
    decreases subs
  {
    if subs != [] {
      DispatchOnlySaves(cfg, DispatchOne(cfg, s, e, subs[0]), e, subs[1..]);
    }
  }

  lemma {:induction false} NeverRunning(cfg: Config, s: State, run: seq<Action>)
    requires OnlySaves(s) && IsRun(cfg, s, run)
    ensures OnlySaves(Final(cfg, s, run))
    decreases run
  {
    if run != [] {
      if run[0].Dispatch? {
        DispatchOnlySaves(cfg, s.(queue := s.queue[1..]), s.queue[0], s.subscriptions);
      }
      NeverRunning(cfg, Apply(cfg, s, run[0]), run[1..]);
    }
  }

  ghost predicate TasksAtRest(cfg: Config, s: State) {
    forall a: Action :: OfTask(a) ==> !Enabled(cfg, s, a)
  }

  /** When no more events are dispatched, the tasks end within 300 steps, and their sets are empty. */
  lemma TasksEnd(cfg: Config, before: seq<Action>, run: seq<Action>)
    requires IsRun(cfg, Init(), before)
    requires IsRun(cfg, Final(cfg, Init(), before), run) && forall i :: 0 <= i < |run| ==> OfTask(run[i])
    ensures |run| <= 300
    ensures var t := Final(cfg, Final(cfg, Init(), before), run);
            TasksAtRest(cfg, t) ==> t.pending == [] && t.dlqTasks == []
  {
    var s := Final(cfg, Init(), before);
    var t := Final(cfg, s, run);
    BusConserves(cfg, before);
    StepsAreFew(s.pending);
    StepsAreFew(s.dlqTasks);
    RunUsesSteps(cfg, s, run);
    if t.pending != [] {
      var a := match t.pending[0].phase
        case Running => HandlerReturns(0)
        case Enqueueing => EnqueueDone(0, true)
        case Finished => Discard(0);
      assert OfTask(a) && Enabled(cfg, t, a);
    }
    if t.dlqTasks != [] {
      NeverRunning(cfg, Init(), before);
      NeverRunning(cfg, s, run);
      var a := if t.dlqTasks[0].phase.Finished? then DlqDiscard(0) else DlqEnqueueDone(0, true);
      assert OfTask(a) && Enabled(cfg, t, a);
    }
  }
}
