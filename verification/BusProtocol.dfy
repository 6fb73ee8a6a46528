/**
 `CoreEventBus` while it is running: publishers, the dispatch loop, subscriber tasks and the
 tasks that save dropped dispatches in the dead letter queue, in any interleaving.
 */
module BusProtocol {

  datatype Event = Event(topic: string, payload: int)

  datatype Subscription = Subscription(pattern: string, callback: int)

  /** One delivery that the bus owes: an event taken from the queue and a matching subscription. */
  datatype Pair = Pair(event: Event, callback: int)

  /** A finished task stays in its set until its done-callback runs. */
  datatype Phase = Running | Enqueueing | Finished

  datatype Task = Task(pair: Pair, phase: Phase)

  datatype Config = Config(maxQueueSize: int, hasDlq: bool, matches: (string, string) -> bool)

  const MAX_PENDING_TASKS: nat := 50
  const MAX_DLQ_TASKS: nat := 50

  datatype State = State(
    queue: seq<Event>, subscriptions: seq<Subscription>,
    pending: seq<Task>, dlqTasks: seq<Task>,
    // history
    owed: multiset<Pair>, handled: multiset<Pair>, persisted: multiset<Pair>, lost: multiset<Pair>)

  datatype Action =
    | Publish(event: Event)
    | Subscribe(subscription: Subscription)
    | Unsubscribe(subscription: Subscription)
    | Dispatch
    | HandlerReturns(task: nat)
    | HandlerRaises(task: nat)
    | EnqueueDone(task: nat, ok: bool)
    | Discard(task: nat)
    | DlqEnqueueDone(task: nat, ok: bool)
    | DlqDiscard(task: nat)

  function Init(): State {
    State([], [], [], [], multiset{}, multiset{}, multiset{}, multiset{})
  }

  predicate InPhase(tasks: seq<Task>, i: nat, phase: Phase) {
    i < |tasks| && tasks[i].phase == phase
  }

  predicate Enabled(cfg: Config, s: State, a: Action) {
    match a
    case Publish(_) => cfg.maxQueueSize <= 0 || |s.queue| < cfg.maxQueueSize
    case Subscribe(_) => true
    case Unsubscribe(_) => true
    case Dispatch => s.queue != []
    case HandlerReturns(i) => InPhase(s.pending, i, Running)
    case HandlerRaises(i) => InPhase(s.pending, i, Running)
    case EnqueueDone(i, _) => InPhase(s.pending, i, Enqueueing)
    case Discard(i) => InPhase(s.pending, i, Finished)
    case DlqEnqueueDone(i, _) => InPhase(s.dlqTasks, i, Enqueueing)
    case DlqDiscard(i) => InPhase(s.dlqTasks, i, Finished)
  }

  function RemoveAt<T>(s: seq<T>, i: nat): seq<T>
    requires i < |s|
  {
    s[..i] + s[i + 1..]
  }

  /** `list.remove`: the first occurrence, if any. */
  function RemoveFirst(s: seq<Subscription>, x: Subscription): seq<Subscription> {
    if s == [] then [] else if s[0] == x then s[1..] else [s[0]] + RemoveFirst(s[1..], x)
  }

  function Finish(tasks: seq<Task>, i: nat, phase: Phase): seq<Task>
    requires i < |tasks|
  {
    tasks[i := tasks[i].(phase := phase)]
  }

  /** The dispatch of one event to one subscription, with its two levels of backpressure. */
  function DispatchOne(cfg: Config, s: State, e: Event, sub: Subscription): State {
    var pair := Pair(e, sub.callback);
    if !cfg.matches(e.topic, sub.pattern) then s
    else if |s.pending| >= MAX_PENDING_TASKS then
      if cfg.hasDlq && |s.dlqTasks| < MAX_DLQ_TASKS then
        s.(owed := s.owed + multiset{pair}, dlqTasks := s.dlqTasks + [Task(pair, Enqueueing)])
      else s.(owed := s.owed + multiset{pair}, lost := s.lost + multiset{pair})
    else s.(owed := s.owed + multiset{pair}, pending := s.pending + [Task(pair, Running)])
  }

  function DispatchAll(cfg: Config, s: State, e: Event, subs: seq<Subscription>): State
    decreases subs
  {
    if subs == [] then s else DispatchAll(cfg, DispatchOne(cfg, s, e, subs[0]), e, subs[1..])
  }

  function Apply(cfg: Config, s: State, a: Action): State
    requires Enabled(cfg, s, a)
  {
    match a
    case Publish(e) => s.(queue := s.queue + [e])
    case Subscribe(sub) => s.(subscriptions := s.subscriptions + [sub])
    case Unsubscribe(sub) => s.(subscriptions := RemoveFirst(s.subscriptions, sub))
    case Dispatch => DispatchAll(cfg, s.(queue := s.queue[1..]), s.queue[0], s.subscriptions)
    case HandlerReturns(i) =>
      s.(pending := Finish(s.pending, i, Finished), handled := s.handled + multiset{s.pending[i].pair})
    case HandlerRaises(i) =>
      if cfg.hasDlq then s.(pending := Finish(s.pending, i, Enqueueing))
      else s.(pending := Finish(s.pending, i, Finished), lost := s.lost + multiset{s.pending[i].pair})
    case EnqueueDone(i, ok) =>
      Saved(s.(pending := Finish(s.pending, i, Finished)), s.pending[i].pair, ok)
    case Discard(i) => s.(pending := RemoveAt(s.pending, i))
    case DlqEnqueueDone(i, ok) =>
      Saved(s.(dlqTasks := Finish(s.dlqTasks, i, Finished)), s.dlqTasks[i].pair, ok)
    case DlqDiscard(i) => s.(dlqTasks := RemoveAt(s.dlqTasks, i))
  }

  function Saved(s: State, pair: Pair, ok: bool): State {
    if ok then s.(persisted := s.persisted + multiset{pair}) else s.(lost := s.lost + multiset{pair})
  }

  predicate IsRun(cfg: Config, s: State, run: seq<Action>)
    decreases run
  {
    run == [] || (Enabled(cfg, s, run[0]) && IsRun(cfg, Apply(cfg, s, run[0]), run[1..]))
  }

  function Final(cfg: Config, s: State, run: seq<Action>): State
    requires IsRun(cfg, s, run)
    decreases run
  {
    if run == [] then s else Final(cfg, Apply(cfg, s, run[0]), run[1..])
  }

  // ------------------------------------------------------------------ what a dispatch does

  /** The deliveries owed for an event, in subscription order. */
  function Matching(cfg: Config, e: Event, subs: seq<Subscription>): seq<Pair> {
    if subs == [] then []
    else (if cfg.matches(e.topic, subs[0].pattern) then [Pair(e, subs[0].callback)] else [])
         + Matching(cfg, e, subs[1..])
  }

  function Min(a: nat, b: nat): nat { if a <= b then a else b }

  function Room(tasks: seq<Task>, max: nat): nat { if |tasks| < max then max - |tasks| else 0 }

  function Tasks(pairs: seq<Pair>, phase: Phase): seq<Task> {
    seq(|pairs|, i requires 0 <= i < |pairs| => Task(pairs[i], phase))
  }

  /** The state after `pairs` were dealt out: `run` tasks, then saved ones, then losses. */
  function DealtAt(s: State, pairs: seq<Pair>, run: nat, save: nat): State
    requires run <= save <= |pairs|
  {
    s.(owed := s.owed + multiset(pairs),
       pending := s.pending + Tasks(pairs[..run], Running),
       dlqTasks := s.dlqTasks + Tasks(pairs[run..save], Enqueueing),
       lost := s.lost + multiset(pairs[save..]))
  }

  function RunCount(s: State, n: nat): nat { Min(n, Room(s.pending, MAX_PENDING_TASKS)) }

  function SaveCount(cfg: Config, s: State, n: nat): (k: nat)
    requires n >= RunCount(s, n)
    ensures RunCount(s, n) <= k <= n
  {
    RunCount(s, n) + (if cfg.hasDlq then Min(n - RunCount(s, n), Room(s.dlqTasks, MAX_DLQ_TASKS)) else 0)
  }

  function Dealt(cfg: Config, s: State, pairs: seq<Pair>): State {
    DealtAt(s, pairs, RunCount(s, |pairs|), SaveCount(cfg, s, |pairs|))
  }

  lemma DealRunning(s: State, p: Pair, rest: seq<Pair>, run: nat, save: nat)
    requires 0 < run <= save <= |rest| + 1
    ensures DealtAt(s.(owed := s.owed + multiset{p}, pending := s.pending + [Task(p, Running)]), rest, run - 1,
                    save - 1)
         == DealtAt(s, [p] + rest, run, save)
  {
    var all := [p] + rest;
    assert all[..run] == [p] + rest[..run - 1] && all[run..save] == rest[run - 1..save - 1];
    assert all[save..] == rest[save - 1..];
    assert s.pending + [Task(p, Running)] + Tasks(rest[..run - 1], Running) == s.pending + Tasks(all[..run], Running);
  }

  lemma DealSaving(s: State, p: Pair, rest: seq<Pair>, save: nat)
    requires 0 < save <= |rest| + 1
    ensures DealtAt(s.(owed := s.owed + multiset{p}, dlqTasks := s.dlqTasks + [Task(p, Enqueueing)]), rest, 0, save - 1)
         == DealtAt(s, [p] + rest, 0, save)
  {
    var all := [p] + rest;
    assert all[..0] == rest[..0] && all[0..save] == [p] + rest[0..save - 1] && all[save..] == rest[save - 1..];
    assert s.dlqTasks + [Task(p, Enqueueing)] + Tasks(rest[0..save - 1], Enqueueing)
        == s.dlqTasks + Tasks(all[0..save], Enqueueing);
  }

  lemma DealLosing(s: State, p: Pair, rest: seq<Pair>)
    ensures DealtAt(s.(owed := s.owed + multiset{p}, lost := s.lost + multiset{p}), rest, 0, 0)
         == DealtAt(s, [p] + rest, 0, 0)
  {
    var all := [p] + rest;
    assert all[..0] == rest[..0] && all[0..0] == rest[0..0] && all[0..] == all && rest[0..] == rest;
  }

  /** What is left to deal out after the first pair has its place. */
  lemma CountsAfterOne(cfg: Config, s: State, e: Event, sub: Subscription, n: nat)
    requires cfg.matches(e.topic, sub.pattern)
    ensures var one := DispatchOne(cfg, s, e, sub);
            var run, save := RunCount(s, n + 1), SaveCount(cfg, s, n + 1);
            && RunCount(one, n) == (if run > 0 then run - 1 else 0)
            && SaveCount(cfg, one, n) == (if save > 0 then save - 1 else 0)
  {
  }

  lemma DispatchOneIs(cfg: Config, s: State, e: Event, sub: Subscription, n: nat)
    requires cfg.matches(e.topic, sub.pattern)
    ensures var pair := Pair(e, sub.callback);
            DispatchOne(cfg, s, e, sub) ==
            if RunCount(s, n + 1) > 0 then
              s.(owed := s.owed + multiset{pair}, pending := s.pending + [Task(pair, Running)])
            else if SaveCount(cfg, s, n + 1) > 0 then
              s.(owed := s.owed + multiset{pair}, dlqTasks := s.dlqTasks + [Task(pair, Enqueueing)])
            else s.(owed := s.owed + multiset{pair}, lost := s.lost + multiset{pair})
  {
  }

  lemma DealtIs(cfg: Config, s: State, pairs: seq<Pair>, run: nat, save: nat)
    requires run == RunCount(s, |pairs|) && save == SaveCount(cfg, s, |pairs|)
    ensures Dealt(cfg, s, pairs) == DealtAt(s, pairs, run, save)
  {
  }

  lemma DealNext(cfg: Config, s: State, p: Pair, one: State, rest: seq<Pair>, run: nat, save: nat)
    requires run == RunCount(s, |rest| + 1) && save == SaveCount(cfg, s, |rest| + 1)
    requires RunCount(one, |rest|) == (if run > 0 then run - 1 else 0)
    requires SaveCount(cfg, one, |rest|) == (if save > 0 then save - 1 else 0)
    requires one ==
             if run > 0 then s.(owed := s.owed + multiset{p}, pending := s.pending + [Task(p, Running)])
             else if save > 0 then s.(owed := s.owed + multiset{p}, dlqTasks := s.dlqTasks + [Task(p, Enqueueing)])
             else s.(owed := s.owed + multiset{p}, lost := s.lost + multiset{p})
    ensures Dealt(cfg, one, rest) == Dealt(cfg, s, [p] + rest)
  {
    DealtIs(cfg, s, [p] + rest, run, save);
    DealtIs(cfg, one, rest, if run > 0 then run - 1 else 0, if save > 0 then save - 1 else 0);
    if run > 0 {
      DealRunning(s, p, rest, run, save);
    } else if save > 0 {
      DealSaving(s, p, rest, save);
    } else {
      DealLosing(s, p, rest);
    }
  }

  lemma DealOne(cfg: Config, s: State, e: Event, sub: Subscription, rest: seq<Pair>)
    requires cfg.matches(e.topic, sub.pattern)
    ensures Dealt(cfg, DispatchOne(cfg, s, e, sub), rest) == Dealt(cfg, s, [Pair(e, sub.callback)] + rest)
  {
    CountsAfterOne(cfg, s, e, sub, |rest|);
    DispatchOneIs(cfg, s, e, sub, |rest|);
    DealNext(cfg, s, Pair(e, sub.callback), DispatchOne(cfg, s, e, sub), rest,
             RunCount(s, |rest| + 1), SaveCount(cfg, s, |rest| + 1));
  }

  lemma DealNothing(cfg: Config, s: State)
    ensures Dealt(cfg, s, []) == s
  {
    assert s.pending + Tasks([], Running) == s.pending && s.dlqTasks + Tasks([], Enqueueing) == s.dlqTasks;
  }

  /** The loop over the subscriptions deals out exactly the matching pairs, in order. */
  lemma {:induction false} DispatchDeals(cfg: Config, s: State, e: Event, subs: seq<Subscription>)
    ensures DispatchAll(cfg, s, e, subs) == Dealt(cfg, s, Matching(cfg, e, subs))
    decreases subs
  {
    if subs == [] {
      DealNothing(cfg, s);
    } else {
      var one := DispatchOne(cfg, s, e, subs[0]);
      DispatchDeals(cfg, one, e, subs[1..]);
      if cfg.matches(e.topic, subs[0].pattern) {
        DealOne(cfg, s, e, subs[0], Matching(cfg, e, subs[1..]));
      } else {
        assert [] + Matching(cfg, e, subs[1..]) == Matching(cfg, e, subs[1..]);
      }
    }
  }

  // ------------------------------------------------------------------ accounting

  /** Deliveries whose task has not finished. */
  function InFlight(tasks: seq<Task>): multiset<Pair> {
    if tasks == [] then multiset{}
    else (if tasks[0].phase.Finished? then multiset{} else multiset{tasks[0].pair}) + InFlight(tasks[1..])
  }

  lemma {:induction false} InFlightConcat(a: seq<Task>, b: seq<Task>)
    ensures InFlight(a + b) == InFlight(a) + InFlight(b)
  {
    if a == [] {
      assert a + b == b;
    } else {
      assert (a + b)[1..] == a[1..] + b;
      InFlightConcat(a[1..], b);
    }
  }

  lemma InFlightAt(tasks: seq<Task>, i: nat)
    requires i <= |tasks|
    ensures InFlight(tasks) == InFlight(tasks[..i]) + InFlight(tasks[i..])
  {
    assert tasks == tasks[..i] + tasks[i..];
    InFlightConcat(tasks[..i], tasks[i..]);
  }

  lemma InFlightSplit(tasks: seq<Task>, i: nat)
    requires i < |tasks|
    ensures InFlight(tasks) == InFlight(tasks[..i]) + InFlight([tasks[i]]) + InFlight(tasks[i + 1..])
  {
    InFlightAt(tasks, i);
    InFlightAt(tasks[i..], 1);
    assert tasks[i..][..1] == [tasks[i]] && tasks[i..][1..] == tasks[i + 1..];
  }

  lemma InFlightOne(t: Task)
    ensures InFlight([t]) == if t.phase.Finished? then multiset{} else multiset{t.pair}
  {
    assert [t][1..] == [];
  }

  /** A task that finishes is no longer in flight; moving on to the queue keeps it so. */
  lemma InFlightFinish(tasks: seq<Task>, i: nat, phase: Phase)
    requires i < |tasks| && !tasks[i].phase.Finished?
    ensures InFlight(tasks) == InFlight(Finish(tasks, i, phase)) + if phase.Finished? then multiset{tasks[i].pair}
          else multiset{}
  {
    var done := Finish(tasks, i, phase);
    InFlightSplit(tasks, i);
    InFlightSplit(done, i);
    InFlightOne(tasks[i]);
    InFlightOne(done[i]);
    assert done[..i] == tasks[..i] && done[i + 1..] == tasks[i + 1..];
  }

  lemma InFlightDiscard(tasks: seq<Task>, i: nat)
    requires i < |tasks| && tasks[i].phase.Finished?
    ensures InFlight(RemoveAt(tasks, i)) == InFlight(tasks)
  {
    InFlightSplit(tasks, i);
    InFlightOne(tasks[i]);
    InFlightConcat(tasks[..i], tasks[i + 1..]);
  }

  lemma {:induction false} InFlightTasks(pairs: seq<Pair>, phase: Phase)
    requires !phase.Finished?
    ensures InFlight(Tasks(pairs, phase)) == multiset(pairs)
  {
    if pairs != [] {
      assert Tasks(pairs, phase)[1..] == Tasks(pairs[1..], phase);
      assert pairs == [pairs[0]] + pairs[1..];
      InFlightTasks(pairs[1..], phase);
    }
  }

  /** Every delivery owed is handled, saved, lost or in flight, exactly once. */
  ghost predicate Balanced(s: State) {
    s.owed == s.handled + s.persisted + s.lost + InFlight(s.pending) + InFlight(s.dlqTasks)
  }

  ghost predicate Bounded(s: State) {
    |s.pending| <= MAX_PENDING_TASKS && |s.dlqTasks| <= MAX_DLQ_TASKS
  }

  lemma DealBalances(cfg: Config, s: State, pairs: seq<Pair>)
    requires Balanced(s) && Bounded(s)
    ensures Balanced(Dealt(cfg, s, pairs)) && Bounded(Dealt(cfg, s, pairs))
  {
    var run, save := RunCount(s, |pairs|), SaveCount(cfg, s, |pairs|);
    InFlightConcat(s.pending, Tasks(pairs[..run], Running));
    InFlightConcat(s.dlqTasks, Tasks(pairs[run..save], Enqueueing));
    InFlightTasks(pairs[..run], Running);
    InFlightTasks(pairs[run..save], Enqueueing);
    ThreeParts(pairs, run, save);
    AddAll(s.owed, s.handled, s.persisted, s.lost, InFlight(s.pending), InFlight(s.dlqTasks),
           multiset(pairs[..run]), multiset(pairs[run..save]), multiset(pairs[save..]));
  }

  lemma ThreeParts(pairs: seq<Pair>, i: nat, j: nat)
    requires i <= j <= |pairs|
    ensures multiset(pairs) == multiset(pairs[..i]) + multiset(pairs[i..j]) + multiset(pairs[j..])
  {
    assert pairs == pairs[..i] + pairs[i..j] + pairs[j..];
  }

  lemma AddAll(owed: multiset<Pair>, handled: multiset<Pair>, persisted: multiset<Pair>, lost: multiset<Pair>,
               running: multiset<Pair>, saving: multiset<Pair>, a: multiset<Pair>, b: multiset<Pair>, c: multiset<Pair>)
    requires owed == handled + persisted + lost + running + saving
    ensures owed + (a + b + c) == handled + persisted + (lost + c) + (running + a) + (saving + b)
  {
  }

  /** What leaves the running tasks is handled, persisted or lost. */
  lemma MoveRunning(owed: multiset<Pair>, handled: multiset<Pair>, persisted: multiset<Pair>, lost: multiset<Pair>,
                    running: multiset<Pair>, saving: multiset<Pair>, d: multiset<Pair>)
    requires owed == handled + persisted + lost + (running + d) + saving
    ensures owed == (handled + d) + persisted + lost + running + saving
    ensures owed == handled + (persisted + d) + lost + running + saving
    ensures owed == handled + persisted + (lost + d) + running + saving
  {
  }

  lemma MoveSaving(owed: multiset<Pair>, handled: multiset<Pair>, persisted: multiset<Pair>, lost: multiset<Pair>,
                   running: multiset<Pair>, saving: multiset<Pair>, d: multiset<Pair>)
    requires owed == handled + persisted + lost + running + (saving + d)
    ensures owed == handled + (persisted + d) + lost + running + saving
    ensures owed == handled + persisted + (lost + d) + running + saving
  {
  }

  lemma PendingStepBalances(cfg: Config, s: State, a: Action, i: nat)
    requires Balanced(s) && Bounded(s) && Enabled(cfg, s, a)
    requires a == HandlerReturns(i) || a == HandlerRaises(i) || a == EnqueueDone(i, true) || a == EnqueueDone(i, false)
    ensures Balanced(Apply(cfg, s, a)) && Bounded(Apply(cfg, s, a))
  {
    var phase := if a.HandlerRaises? && cfg.hasDlq then Enqueueing else Finished;
    InFlightFinish(s.pending, i, phase);
    if phase.Finished? {
      MoveRunning(s.owed, s.handled, s.persisted, s.lost, InFlight(Finish(s.pending, i, Finished)),
                  InFlight(s.dlqTasks),
                  multiset{s.pending[i].pair});
    }
  }

  lemma DlqStepBalances(cfg: Config, s: State, i: nat, ok: bool)
    requires Balanced(s) && Bounded(s) && Enabled(cfg, s, DlqEnqueueDone(i, ok))
    ensures Balanced(Apply(cfg, s, DlqEnqueueDone(i, ok))) && Bounded(Apply(cfg, s, DlqEnqueueDone(i, ok)))
  {
    InFlightFinish(s.dlqTasks, i, Finished);
    MoveSaving(s.owed, s.handled, s.persisted, s.lost, InFlight(s.pending), InFlight(Finish(s.dlqTasks, i, Finished)),
               multiset{s.dlqTasks[i].pair});
  }

  lemma StepBalances(cfg: Config, s: State, a: Action)
    requires Balanced(s) && Bounded(s) && Enabled(cfg, s, a)
    ensures Balanced(Apply(cfg, s, a)) && Bounded(Apply(cfg, s, a))
  {
    match a
    case Publish(_) =>
    case Subscribe(_) =>
    case Unsubscribe(_) =>
    case Dispatch =>
      var taken := s.(queue := s.queue[1..]);
      DispatchDeals(cfg, taken, s.queue[0], s.subscriptions);
      DealBalances(cfg, taken, Matching(cfg, s.queue[0], s.subscriptions));
    case HandlerReturns(i) => PendingStepBalances(cfg, s, a, i);
    case HandlerRaises(i) => PendingStepBalances(cfg, s, a, i);
    case EnqueueDone(i, _) => PendingStepBalances(cfg, s, a, i);
    case Discard(i) => InFlightDiscard(s.pending, i);
    case DlqEnqueueDone(i, ok) => DlqStepBalances(cfg, s, i, ok);
    case DlqDiscard(i) => InFlightDiscard(s.dlqTasks, i);
  }

  lemma {:induction false} RunBalances(cfg: Config, s: State, run: seq<Action>)
    requires Balanced(s) && Bounded(s) && IsRun(cfg, s, run)
    ensures Balanced(Final(cfg, s, run)) && Bounded(Final(cfg, s, run))
    decreases run
  {
    if run != [] {
      StepBalances(cfg, s, run[0]);
      RunBalances(cfg, Apply(cfg, s, run[0]), run[1..]);
    }
  }

  /** In every interleaving the task sets stay bounded and no delivery is lost track of. */
  lemma BusConserves(cfg: Config, run: seq<Action>)
    requires IsRun(cfg, Init(), run)
    ensures var s := Final(cfg, Init(), run); Balanced(s) && |s.pending| <= 50 && |s.dlqTasks| <= 50
  {
    RunBalances(cfg, Init(), run);
  }

  // ------------------------------------------------------------------ what is owed, and losses

  /** The deliveries owed by a run: for each event dispatched, the subscriptions it then matched. */
  function OwedBy(cfg: Config, s: State, run: seq<Action>): multiset<Pair>
    requires IsRun(cfg, s, run)
    decreases run
  {
    if run == [] then multiset{}
    else
      (if run[0].Dispatch? then multiset(Matching(cfg, s.queue[0], s.subscriptions)) else multiset{})
      + OwedBy(cfg, Apply(cfg, s, run[0]), run[1..])
  }

  lemma {:induction false} OwedIsMatched(cfg: Config, s: State, run: seq<Action>)
    requires IsRun(cfg, s, run)
    ensures Final(cfg, s, run).owed == s.owed + OwedBy(cfg, s, run)
    decreases run
  {
    if run != [] {
      if run[0].Dispatch? {
        DispatchDeals(cfg, s.(queue := s.queue[1..]), s.queue[0], s.subscriptions);
      }
      OwedIsMatched(cfg, Apply(cfg, s, run[0]), run[1..]);
    }
  }

  /** The dead letter queue is there, its writes succeed and its tasks are not saturated. */
  ghost predicate Harmless(cfg: Config, s: State, a: Action) {
    match a
    case Dispatch =>
      s.queue != [] ==>
        |Matching(cfg, s.queue[0], s.subscriptions)|
        <= Room(s.pending, MAX_PENDING_TASKS) + if cfg.hasDlq then Room(s.dlqTasks, MAX_DLQ_TASKS) else 0
    case HandlerRaises(_) => cfg.hasDlq
    case EnqueueDone(_, ok) => ok
    case DlqEnqueueDone(_, ok) => ok
    case _ => true
  }

  /** A step loses something exactly when it is not harmless. */
  lemma WhenStepLoses(cfg: Config, s: State, a: Action)
    requires Enabled(cfg, s, a)
    ensures s.lost <= Apply(cfg, s, a).lost
    ensures Apply(cfg, s, a).lost == s.lost <==> Harmless(cfg, s, a)
  {
    match a
    case Dispatch =>
      var taken := s.(queue := s.queue[1..]);
      var pairs := Matching(cfg, s.queue[0], s.subscriptions);
      DispatchDeals(cfg, taken, s.queue[0], s.subscriptions);
      var save := SaveCount(cfg, taken, |pairs|);
      assert |Apply(cfg, s, a).lost| == |s.lost| + |pairs[save..]|;
      assert |pairs[save..]| == 0 ==> multiset(pairs[save..]) == multiset{};
    case HandlerRaises(i) => assert |s.lost + multiset{s.pending[i].pair}| == |s.lost| + 1;
    case EnqueueDone(i, _) => assert |s.lost + multiset{s.pending[i].pair}| == |s.lost| + 1;
    case DlqEnqueueDone(i, _) => assert |s.lost + multiset{s.dlqTasks[i].pair}| == |s.lost| + 1;
    case _ =>
  }

  ghost predicate AllHarmless(cfg: Config, s: State, run: seq<Action>)
    requires IsRun(cfg, s, run)
    decreases run
  {
    run == [] || (Harmless(cfg, s, run[0]) && AllHarmless(cfg, Apply(cfg, s, run[0]), run[1..]))
  }

  /** A run loses nothing exactly when each of its steps is harmless. */
  lemma {:induction false} WhenNothingIsLost(cfg: Config, s: State, run: seq<Action>)
    requires IsRun(cfg, s, run)
    ensures s.lost <= Final(cfg, s, run).lost
    ensures Final(cfg, s, run).lost == s.lost <==> AllHarmless(cfg, s, run)
    decreases run
  {
    if run != [] {
      WhenStepLoses(cfg, s, run[0]);
      WhenNothingIsLost(cfg, Apply(cfg, s, run[0]), run[1..]);
    }
  }
}
