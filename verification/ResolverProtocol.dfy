/**
 `AsyncPathResolver.resolve_safe` as a protocol: a coroutine finds the cache, joins a future in
 flight, or becomes the owner that resolves in a thread and completes the future.  The sections
 under the lock contain no await, so each is one step.
 */
module ResolverProtocol {
  import opened Folds
  import opened Wrappers

  datatype Key = Key(rawPath: string, strict: bool)

  /** What a thread or a future yields; the last two are never translated or cached. */
  datatype Outcome = Resolved(path: string) | ResolutionError | OtherError | Cancelled

  /** Where a caller got its outcome from. */
  datatype Via = FromCache | OfFuture(future: nat) | Interrupted

  datatype Task =
    | Calling(key: Key)
    | Waiting(key: Key, future: nat)
    | Resolving(key: Key, future: nat)
    | Settling(key: Key, future: nat, outcome: Outcome)
    | Done(key: Key, outcome: Outcome, via: Via)

  /** A future, with its history: key, owner, and what the thread of the owner yielded. */
  datatype Future = Future(outcome: Option<Outcome>, key: Key, owner: nat, result: Option<Outcome>)

  datatype State = State(
    cache: map<Key, string>, inflight: map<Key, nat>,
    futures: seq<Future>, tasks: seq<Task>,
    winners: map<Key, nat>)           // history: the future whose value was cached

  datatype Action =
    | Call(key: Key)
    | Enter(task: nat)
    | ThreadEnds(task: nat, outcome: Outcome)
    | Publish(task: nat)
    | Wake(task: nat)
    | Interrupt(task: nat)            // a waiter is cancelled; the shield keeps the future

  function Init(): State { State(map[], map[], [], [], map[]) }

  predicate IsOwner(t: Task) { t.Resolving? || t.Settling? }

  predicate Enabled(s: State, a: Action) {
    match a
    case Call(_) => true
    case Enter(t) => t < |s.tasks| && s.tasks[t].Calling?
    case ThreadEnds(t, _) => t < |s.tasks| && s.tasks[t].Resolving? && s.tasks[t].future < |s.futures|
    case Publish(t) => t < |s.tasks| && s.tasks[t].Settling? && s.tasks[t].future < |s.futures|
    case Wake(t) =>
      && t < |s.tasks| && s.tasks[t].Waiting? && s.tasks[t].future < |s.futures|
      && s.futures[s.tasks[t].future].outcome.Some?
    case Interrupt(t) => t < |s.tasks| && s.tasks[t].Waiting?
  }

  function Without(m: map<Key, nat>, key: Key): map<Key, nat> { m - {key} }

  /** The first section under the lock. */
  function Entered(s: State, t: nat): State
    requires Enabled(s, Enter(t))
  {
    var key := s.tasks[t].key;
    if key in s.cache then s.(tasks := s.tasks[t := Done(key, Resolved(s.cache[key]), FromCache)])
    else if key in s.inflight then s.(tasks := s.tasks[t := Waiting(key, s.inflight[key])])
    else
      var future := |s.futures|;
      s.(inflight := s.inflight[key := future], futures := s.futures + [Future(None, key, t, None)],
         tasks := s.tasks[t := Resolving(key, future)])
  }

  /** The last section under the lock, and the completion of the future. */
  function Published(s: State, t: nat): State
    requires Enabled(s, Publish(t))
  {
    var Settling(key, future, outcome) := s.tasks[t];
    s.(cache := if outcome.Resolved? then s.cache[key := outcome.path] else s.cache,
       inflight := Without(s.inflight, key),
       winners := if outcome.Resolved? then s.winners[key := future] else s.winners,
       futures := s.futures[future := s.futures[future].(outcome := Some(outcome))],
       tasks := s.tasks[t := Done(key, outcome, OfFuture(future))])
  }

  function Apply(s: State, a: Action): State
    requires Enabled(s, a)
  {
    match a
    case Call(key) => s.(tasks := s.tasks + [Calling(key)])
    case Enter(t) => Entered(s, t)
    case ThreadEnds(t, outcome) =>
      var f := s.tasks[t].future;
      s.(futures := s.futures[f := s.futures[f].(result := Some(outcome))],
         tasks := s.tasks[t := Settling(s.tasks[t].key, s.tasks[t].future, outcome)])
    case Publish(t) => Published(s, t)
    case Wake(t) =>
      var f := s.tasks[t].future;
      s.(tasks := s.tasks[t := Done(s.tasks[t].key, s.futures[f].outcome.value, OfFuture(f))])
    case Interrupt(t) => s.(tasks := s.tasks[t := Done(s.tasks[t].key, Cancelled, Interrupted)])
  }

  predicate IsRun(s: State, run: seq<Action>)
    decreases run
  {
    run == [] || (Enabled(s, run[0]) && IsRun(Apply(s, run[0]), run[1..]))
  }

  function Final(s: State, run: seq<Action>): State
    requires IsRun(s, run)
    decreases run
  {
    if run == [] then s else Final(Apply(s, run[0]), run[1..])
  }

  // ------------------------------------------------------------------ invariant

  /** Task `t` is the owner of future `f`, which is in flight for its key. */
  ghost predicate Owns(s: State, t: nat, key: Key, f: nat) {
    && f < |s.futures| && s.futures[f].owner == t && s.futures[f].key == key && s.futures[f].outcome.None?
    && key in s.inflight && s.inflight[key] == f
  }

  /** A task is consistent with the futures and the cache. */
  ghost predicate TaskOk(s: State, t: nat)
    requires t < |s.tasks|
  {
    match s.tasks[t]
    case Calling(_) => true
    case Waiting(key, f) => f < |s.futures| && s.futures[f].key == key
    case Resolving(key, f) => Owns(s, t, key, f) && s.futures[f].result.None?
    case Settling(key, f, o) => Owns(s, t, key, f) && s.futures[f].result == Some(o)
    case Done(key, o, FromCache) => key in s.cache && o == Resolved(s.cache[key])
    case Done(key, o, OfFuture(f)) => f < |s.futures| && s.futures[f].key == key && s.futures[f].outcome == Some(o)
    case Done(_, o, Interrupted) => o == Cancelled
  }

  /** A future is completed once, with the result of its owner; a success is cached. */
  ghost predicate FutureOk(s: State, f: nat)
    requires f < |s.futures|
  {
    match s.futures[f].outcome
    case None => s.futures[f].key in s.inflight && s.inflight[s.futures[f].key] == f
    case Some(o) =>
      && s.futures[f].result == Some(o)
      && (o.Resolved? ==> s.futures[f].key in s.winners && s.winners[s.futures[f].key] == f)
  }

  /** An entry in flight has an owner at work. */
  ghost predicate EntryOk(s: State, key: Key)
    requires key in s.inflight
  {
    var f := s.inflight[key];
    && f < |s.futures| && s.futures[f].key == key && s.futures[f].outcome.None?
    && s.futures[f].owner < |s.tasks| && IsOwner(s.tasks[s.futures[f].owner])
    && s.tasks[s.futures[f].owner].key == key && s.tasks[s.futures[f].owner].future == f
  }

  /** A cached value is the success of one future. */
  ghost predicate CachedOk(s: State, key: Key)
    requires key in s.cache
  {
    && key in s.winners && s.winners[key] < |s.futures| && s.futures[s.winners[key]].key == key
    && s.futures[s.winners[key]].outcome == Some(Resolved(s.cache[key]))
  }

  ghost predicate Inv(s: State) {
    && s.cache.Keys !! s.inflight.Keys && s.winners.Keys == s.cache.Keys
    && (forall key :: key in s.inflight ==> EntryOk(s, key))
    && (forall key :: key in s.cache ==> CachedOk(s, key))
    && (forall t :: 0 <= t < |s.tasks| ==> TaskOk(s, t))
    && (forall f :: 0 <= f < |s.futures| ==> FutureOk(s, f))
  }

  /** A task that owns nothing, before or after, moves on by itself. */
  lemma MoveKeepsInv(s: State, t: nat, next: Task)
    requires Inv(s) && t < |s.tasks| && !IsOwner(s.tasks[t]) && !IsOwner(next)
    requires TaskOk(s.(tasks := s.tasks[t := next]), t)
    ensures Inv(s.(tasks := s.tasks[t := next]))
  {
    var s' := s.(tasks := s.tasks[t := next]);
    forall key | key in s'.inflight ensures EntryOk(s', key) {
      assert EntryOk(s, key);
    }
    forall key | key in s'.cache ensures CachedOk(s', key) {
      assert CachedOk(s, key);
    }
    forall f | 0 <= f < |s'.futures| ensures FutureOk(s', f) {
      assert FutureOk(s, f);
    }
    forall u | 0 <= u < |s'.tasks| ensures TaskOk(s', u) {
      assert TaskOk(s, u);
    }
  }

  lemma CallKeepsInv(s: State, key: Key)
    requires Inv(s)
    ensures Inv(Apply(s, Call(key)))
  {
    var s' := Apply(s, Call(key));
    forall key | key in s'.inflight ensures EntryOk(s', key) {
      assert EntryOk(s, key);
    }
    forall key | key in s'.cache ensures CachedOk(s', key) {
      assert CachedOk(s, key);
    }
    forall f | 0 <= f < |s'.futures| ensures FutureOk(s', f) {
      assert FutureOk(s, f);
    }
    forall u | 0 <= u < |s'.tasks| ensures TaskOk(s', u) {
      if u < |s.tasks| { assert TaskOk(s, u); }
    }
  }

  /** The caller that finds neither a value nor a future becomes the owner. */
  lemma OwnKeepsInv(s: State, t: nat)
    requires Inv(s) && Enabled(s, Enter(t))
    requires s.tasks[t].key !in s.cache && s.tasks[t].key !in s.inflight
    ensures Inv(Entered(s, t))
  {
    var s' := Entered(s, t);
    forall key | key in s'.inflight ensures EntryOk(s', key) {
      if key in s.inflight { assert EntryOk(s, key); }
    }
    forall key | key in s'.cache ensures CachedOk(s', key) {
      assert CachedOk(s, key);
    }
    forall f | 0 <= f < |s'.futures| ensures FutureOk(s', f) {
      if f < |s.futures| { assert FutureOk(s, f); }
    }
    forall u | 0 <= u < |s'.tasks| ensures TaskOk(s', u) {
      assert TaskOk(s, u);
    }
  }

  lemma EnterKeepsInv(s: State, t: nat)
    requires Inv(s) && Enabled(s, Enter(t))
    ensures Inv(Entered(s, t))
  {
    var key := s.tasks[t].key;
    if key in s.cache {
      MoveKeepsInv(s, t, Done(key, Resolved(s.cache[key]), FromCache));
    } else if key in s.inflight {
      assert EntryOk(s, key);
      MoveKeepsInv(s, t, Waiting(key, s.inflight[key]));
    } else {
      OwnKeepsInv(s, t);
    }
  }

  lemma ThreadKeepsInv(s: State, t: nat, outcome: Outcome)
    requires Inv(s) && Enabled(s, ThreadEnds(t, outcome))
    ensures Inv(Apply(s, ThreadEnds(t, outcome)))
  {
    var s' := Apply(s, ThreadEnds(t, outcome));
    assert TaskOk(s, t);
    forall key | key in s'.inflight ensures EntryOk(s', key) {
      assert EntryOk(s, key);
    }
    forall key | key in s'.cache ensures CachedOk(s', key) {
      assert CachedOk(s, key);
    }
    forall f | 0 <= f < |s'.futures| ensures FutureOk(s', f) {
      assert FutureOk(s, f);
    }
    forall u | 0 <= u < |s'.tasks| ensures TaskOk(s', u) {
      assert TaskOk(s, u);
    }
  }

  lemma PublishKeepsMaps(s: State, t: nat)
    requires Inv(s) && Enabled(s, Publish(t))
    ensures var s' := Published(s, t);
            && (forall key :: key in s'.inflight ==> EntryOk(s', key))
            && (forall key :: key in s'.cache ==> CachedOk(s', key))
  {
    var s' := Published(s, t);
    assert TaskOk(s, t);
    forall key | key in s'.inflight ensures EntryOk(s', key) {
      assert EntryOk(s, key);
    }
    forall key | key in s'.cache ensures CachedOk(s', key) {
      if key in s.cache { assert CachedOk(s, key); }
    }
  }

  lemma PublishKeepsFutures(s: State, t: nat)
    requires Inv(s) && Enabled(s, Publish(t))
    ensures forall f :: 0 <= f < |s.futures| ==> FutureOk(Published(s, t), f)
  {
    var s' := Published(s, t);
    assert TaskOk(s, t);
    forall f | 0 <= f < |s.futures| ensures FutureOk(s', f) {
      assert FutureOk(s, f);
    }
  }

  lemma PublishKeepsInv(s: State, t: nat)
    requires Inv(s) && Enabled(s, Publish(t))
    ensures Inv(Published(s, t))
  {
    var s' := Published(s, t);
    assert TaskOk(s, t);
    PublishKeepsMaps(s, t);
    PublishKeepsFutures(s, t);
    forall u | 0 <= u < |s'.tasks| ensures TaskOk(s', u) {
      assert TaskOk(s, u);
    }
  }

  lemma StepKeepsInv(s: State, a: Action)
    requires Inv(s) && Enabled(s, a)
    ensures Inv(Apply(s, a))
  {
    match a
    case Call(key) => CallKeepsInv(s, key);
    case Enter(t) => EnterKeepsInv(s, t);
    case ThreadEnds(t, outcome) => ThreadKeepsInv(s, t, outcome);
    case Publish(t) => PublishKeepsInv(s, t);
    case Wake(t) =>
      var f := s.tasks[t].future;
      assert TaskOk(s, t);
      MoveKeepsInv(s, t, Done(s.tasks[t].key, s.futures[f].outcome.value, OfFuture(f)));
    case Interrupt(t) => MoveKeepsInv(s, t, Done(s.tasks[t].key, Cancelled, Interrupted));
  }

  lemma {:induction false} RunKeepsInv(s: State, run: seq<Action>)
    requires Inv(s) && IsRun(s, run)
    ensures Inv(Final(s, run))
    decreases run
  {
    if run != [] {
      StepKeepsInv(s, run[0]);
      RunKeepsInv(Apply(s, run[0]), run[1..]);
    }
  }

  // ------------------------------------------------------------------ where outcomes come from

  /** Each task was called with its key, and each result was yielded by the thread of an owner for that key. */
  ghost predicate Origins(s: State, past: seq<Action>) {
    && |s.tasks| == |Calls(past)|
    && (forall t :: 0 <= t < |s.tasks| ==> s.tasks[t].key == Calls(past)[t])
    && (forall f :: 0 <= f < |s.futures| ==>
          && s.futures[f].owner < |s.tasks| && s.tasks[s.futures[f].owner].key == s.futures[f].key
          && (s.futures[f].result.Some? ==> ThreadEnds(s.futures[f].owner, s.futures[f].result.value) in past))
  }

  /** The keys of the calls, in order. */
  function Calls(run: seq<Action>): seq<Key> {
    if run == [] then []
    else
      var last := run[|run| - 1];
      Calls(run[..|run| - 1]) + if last.Call? then [last.key] else []
  }

  lemma StepCalls(s: State, past: seq<Action>, a: Action)
    requires |s.tasks| == |Calls(past)| && (forall t :: 0 <= t < |s.tasks| ==> s.tasks[t].key == Calls(past)[t])
    requires Enabled(s, a)
    ensures var t := Apply(s, a);
            && |t.tasks| == |Calls(past + [a])|
            && (forall i :: 0 <= i < |t.tasks| ==> t.tasks[i].key == Calls(past + [a])[i])
  {
    assert (past + [a])[..|past|] == past;
  }

  lemma StepOrigins(s: State, past: seq<Action>, a: Action)
    requires Inv(s) && Origins(s, past) && Enabled(s, a)
    ensures Origins(Apply(s, a), past + [a])
  {
    StepCalls(s, past, a);
    if a.ThreadEnds? || a.Publish? {
      assert TaskOk(s, a.task);
    }
    var t := Apply(s, a);
    forall f | 0 <= f < |t.futures|
      ensures t.futures[f].owner < |t.tasks| && t.tasks[t.futures[f].owner].key == t.futures[f].key
      ensures t.futures[f].result.Some? ==> ThreadEnds(t.futures[f].owner, t.futures[f].result.value) in past + [a]
    {
      if f < |s.futures| {
        assert s.futures[f].owner == t.futures[f].owner && s.futures[f].key == t.futures[f].key;
      }
    }
  }

  lemma {:induction false} RunOrigins(s: State, past: seq<Action>, run: seq<Action>)
    requires Inv(s) && Origins(s, past) && IsRun(s, run)
    ensures Origins(Final(s, run), past + run)
    decreases run
  {
    if run == [] {
      assert past + run == past;
    } else {
      StepKeepsInv(s, run[0]);
      StepOrigins(s, past, run[0]);
      RunOrigins(Apply(s, run[0]), past + [run[0]], run[1..]);
      assert past + run == (past + [run[0]]) + run[1..];
    }
  }

  /** The task `u` was called with the key, and its thread yielded the outcome, in this run. */
  ghost predicate Yielded(run: seq<Action>, u: nat, key: Key, o: Outcome) {
    u < |Calls(run)| && Calls(run)[u] == key && ThreadEnds(u, o) in run
  }

  /** The state that a run reaches, and what its history says. */
  lemma RunFacts(run: seq<Action>)
    requires IsRun(Init(), run)
    ensures Inv(Final(Init(), run)) && Origins(Final(Init(), run), run)
  {
    RunKeepsInv(Init(), run);
    RunOrigins(Init(), [], run);
    assert [] + run == run;
  }

  // ------------------------------------------------------------------ main results

  /** At most one coroutine at a time resolves a key, and then there is no cached value. */
  lemma SingleFlight(run: seq<Action>, t: nat, u: nat)
    requires IsRun(Init(), run)
    requires var s := Final(Init(), run);
             t < |s.tasks| && u < |s.tasks| && IsOwner(s.tasks[t]) && IsOwner(s.tasks[u])
                   && s.tasks[t].key == s.tasks[u].key
    ensures t == u && Final(Init(), run).tasks[t].key !in Final(Init(), run).cache
  {
    RunKeepsInv(Init(), run);
    var s := Final(Init(), run);
    assert TaskOk(s, t) && TaskOk(s, u);
  }

  /** A key is resolved successfully at most once, and a success is what is cached. */
  lemma OneSuccessPerKey(run: seq<Action>, f: nat, g: nat)
    requires IsRun(Init(), run)
    requires var s := Final(Init(), run);
             f < |s.futures| && g < |s.futures| && s.futures[f].key == s.futures[g].key
             && IsSuccess(s.futures[f].outcome) && IsSuccess(s.futures[g].outcome)
    ensures f == g
    ensures var s := Final(Init(), run);
            s.futures[f].key in s.cache && s.futures[f].outcome.value == Resolved(s.cache[s.futures[f].key])
  {
    RunKeepsInv(Init(), run);
    var s := Final(Init(), run);
    assert FutureOk(s, f) && FutureOk(s, g);
    assert CachedOk(s, s.futures[f].key);
  }

  predicate IsSuccess(o: Option<Outcome>) { o.Some? && o.value.Resolved? }

  /**
   A caller that was not cancelled while waiting has what the thread of one call of its own key
   yielded; a path comes from the only successful one, so all callers of a key agree on it.
   */
  lemma CallersAgree(run: seq<Action>, t: nat)
    requires IsRun(Init(), run)
    requires t < |Final(Init(), run).tasks| && Final(Init(), run).tasks[t].Done?
    ensures var s := Final(Init(), run);
            var Done(key, o, via) := s.tasks[t];
            && t < |Calls(run)| && key == Calls(run)[t]
            && (via.OfFuture? ==> via.future < |s.futures| && Yielded(run, s.futures[via.future].owner, key, o))
            && (o.Resolved? ==> key in s.cache && o.path == s.cache[key] && exists u :: Yielded(run, u, key, o))
            && (via.FromCache? ==> o.Resolved?)
            && (via.Interrupted? ==> o.Cancelled? && Interrupt(t) in run)
  {
    RunFacts(run);
    RunInterrupts(Init(), [], run);
    assert [] + run == run;
    var s := Final(Init(), run);
    assert TaskOk(s, t);
    if s.tasks[t].via.OfFuture? {
      assert FutureOk(s, s.tasks[t].via.future);
      if s.tasks[t].outcome.Resolved? {
        assert CachedOk(s, s.tasks[t].key);
      }
    }
    if s.tasks[t].outcome.Resolved? {
      FailuresNotCached(run, s.tasks[t].key);
    }
  }

  /** Only a waiter that is cancelled itself is interrupted. */
  ghost predicate InterruptsAre(s: State, past: seq<Action>) {
    forall t :: 0 <= t < |s.tasks| && s.tasks[t].Done? && s.tasks[t].via.Interrupted? ==> Interrupt(t) in past
  }

  lemma {:induction false} RunInterrupts(s: State, past: seq<Action>, run: seq<Action>)
    requires InterruptsAre(s, past) && IsRun(s, run)
    ensures InterruptsAre(Final(s, run), past + run)
    decreases run
  {
    if run == [] {
      assert past + run == past;
    } else {
      RunInterrupts(Apply(s, run[0]), past + [run[0]], run[1..]);
      assert past + run == (past + [run[0]]) + run[1..];
    }
  }

  /** A cached path was yielded by the thread of a call of that key. */
  ghost predicate SucceededFor(run: seq<Action>, key: Key, path: string) {
    exists u :: Yielded(run, u, key, Resolved(path))
  }

  /** Only successes are cached, each being what a thread yielded for that key. */
  lemma FailuresNotCached(run: seq<Action>, key: Key)
    requires IsRun(Init(), run) && key in Final(Init(), run).cache
    ensures SucceededFor(run, key, Final(Init(), run).cache[key])
  {
    RunFacts(run);
    var s := Final(Init(), run);
    assert CachedOk(s, key);
    assert FutureOk(s, s.winners[key]);
    assert Yielded(run, s.futures[s.winners[key]].owner, key, Resolved(s.cache[key]));
  }

  /** Completing a future never finds it completed, and every waiter has an owner at work. */
  lemma NobodyHangs(run: seq<Action>, t: nat)
    requires IsRun(Init(), run)
    requires t < |Final(Init(), run).tasks|
    ensures var s := Final(Init(), run);
            && (s.tasks[t].Settling? ==> Enabled(s, Publish(t)) && s.futures[s.tasks[t].future].outcome.None?)
            && (s.tasks[t].Waiting? ==>
                  || Enabled(s, Wake(t))
                  || (s.tasks[t].future < |s.futures|
                      && var owner := s.futures[s.tasks[t].future].owner;
                         owner < |s.tasks| && IsOwner(s.tasks[owner]) && s.tasks[owner].future == s.tasks[t].future))
  {
    RunKeepsInv(Init(), run);
    var s := Final(Init(), run);
    assert TaskOk(s, t);
    if s.tasks[t].Waiting? {
      assert FutureOk(s, s.tasks[t].future);
      if s.futures[s.tasks[t].future].outcome.None? {
        assert EntryOk(s, s.tasks[t].key);
      }
    }
  }

  // ------------------------------------------------------------------ every call ends

  /** The steps that a coroutine has before it, at most. */
  function StepsLeft(t: Task): nat {
    match t
    case Calling(_) => 3
    case Resolving(_, _) => 2
    case Settling(_, _, _) => 1
    case Waiting(_, _) => 1
    case Done(_, _, _) => 0
  }

  lemma StepUsesStep(s: State, a: Action)
    requires Enabled(s, a)
    ensures SumBy(Apply(s, a).tasks, StepsLeft) + 1 <= SumBy(s.tasks, StepsLeft) + if a.Call? then 4 else 0
  {
    var t := Apply(s, a);
    if a.Call? {
      SumByConcat(s.tasks, [Calling(a.key)], StepsLeft);
      assert SumBy([Calling(a.key)], StepsLeft) == 3 + SumBy([], StepsLeft);
    } else {
      assert t.tasks == s.tasks[a.task := t.tasks[a.task]];
      SumByUpdate(s.tasks, StepsLeft, a.task, t.tasks[a.task]);
    }
  }

  /** No call takes more than four steps, its first included. */
  lemma {:induction false} RunsAreBounded(s: State, run: seq<Action>, calls: nat)
    requires IsRun(s, run) && calls == |Calls(run)|
    ensures |run| + SumBy(Final(s, run).tasks, StepsLeft) <= SumBy(s.tasks, StepsLeft) + 4 * calls
    decreases run
  {
    if run != [] {
      CallsFirst(run);
      StepUsesStep(s, run[0]);
      RunsAreBounded(Apply(s, run[0]), run[1..], |Calls(run[1..])|);
    }
  }

  lemma {:induction false} CallsFirst(run: seq<Action>)
    requires run != []
    ensures Calls(run) == (if run[0].Call? then [run[0].key] else []) + Calls(run[1..])
  {
    if |run| > 1 {
      var init := run[..|run| - 1];
      CallsFirst(init);
      assert init[1..] == run[1..][..|run| - 2];
    }
  }

  /** The next step of a task that is not done, or of the owner it waits for. */
  lemma CallsEnd(run: seq<Action>, t: nat) returns (a: Action)
    requires IsRun(Init(), run)
    requires t < |Final(Init(), run).tasks| && !Final(Init(), run).tasks[t].Done?
    ensures !a.Call? && !a.Interrupt? && Enabled(Final(Init(), run), a)
    ensures |run| + 1 <= 4 * |Calls(run)|
  {
    var s := Final(Init(), run);
    RunsAreBounded(Init(), run, |Calls(run)|);
    SumByPositive(s.tasks, StepsLeft);
    NobodyHangs(run, t);
    RunKeepsInv(Init(), run);
    assert TaskOk(s, t);
    match s.tasks[t]
    case Calling(_) => a := Enter(t);
    case Resolving(_, _) => a := ThreadEnds(t, OtherError);
    case Settling(_, _, _) => a := Publish(t);
    case Waiting(_, f) =>
      var owner := s.futures[f].owner;
      if Enabled(s, Wake(t)) {
        a := Wake(t);
      } else {
        assert TaskOk(s, owner);
        a := if s.tasks[owner].Resolving? then ThreadEnds(owner, OtherError) else Publish(owner);
      }
  }
}
