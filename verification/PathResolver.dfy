/** `AsyncPathResolver`: the two dictionaries and the futures, updated in place by `resolve_safe`. */
module PathResolver {
  import opened Wrappers
  import opened ResolverProtocol

  class AsyncPathResolver {
    var cache: map<Key, string>
    var inflight: map<Key, nat>
    var futures: seq<Future>
    var tasks: seq<Task>
    ghost var winners: map<Key, nat>

    constructor ()
      ensures View() == Init()
    {
      cache, inflight, futures, tasks, winners := map[], map[], [], [], map[];
    }

    ghost function View(): State
      reads this
    {
      State(cache, inflight, futures, tasks, winners)
    }

    /** A coroutine calls `resolve_safe`. */
    method ResolveSafe(key: Key) returns (t: nat)
      modifies this`tasks
      ensures View() == Apply(old(View()), Call(key)) && t == |old(tasks)|
    {
      t := |tasks|;
      tasks := tasks + [Calling(key)];
    }

    /** Fast path, join, or become the owner: the section under the lock. */
    method FirstSection(t: nat) returns (isOwner: bool)
      requires Enabled(View(), Enter(t))
      modifies this
      ensures View() == Apply(old(View()), Enter(t))
      ensures isOwner == IsOwner(tasks[t])
    {
      var key := tasks[t].key;
      isOwner := false;
      if key in cache {
        tasks := tasks[t := Done(key, Resolved(cache[key]), FromCache)];
        return;
      }
      if key in inflight {
        tasks := tasks[t := Waiting(key, inflight[key])];
      } else {
        var future := |futures|;
        futures := futures + [Future(None, key, t, None)];
        inflight := inflight[key := future];
        tasks := tasks[t := Resolving(key, future)];
        isOwner := true;
      }
    }

    /** The thread of the owner is done. */
    method ThreadDone(t: nat, outcome: Outcome)
      requires Enabled(View(), ThreadEnds(t, outcome))
      modifies this`futures, this`tasks
      ensures View() == Apply(old(View()), ThreadEnds(t, outcome))
    {
      var f := tasks[t].future;
      futures := futures[f := futures[f].(result := Some(outcome))];
      tasks := tasks[t := Settling(tasks[t].key, f, outcome)];
    }

    /** Memoize a success, take the key out of flight, complete the future. */
    method LastSection(t: nat)
      requires Enabled(View(), Publish(t))
      modifies this
      ensures View() == Apply(old(View()), Publish(t))
    {
      var key, f, outcome := tasks[t].key, tasks[t].future, tasks[t].outcome;
      if outcome.Resolved? {
        cache := cache[key := outcome.path];
        winners := winners[key := f];
      }
      inflight := inflight - {key};
      futures := futures[f := futures[f].(outcome := Some(outcome))];
      tasks := tasks[t := Done(key, outcome, OfFuture(f))];
    }

    /** A waiter resumes, with the outcome of the shielded future or cancelled itself. */
    method Resume(t: nat, interrupted: bool)
      requires Enabled(View(), if interrupted then Interrupt(t) else Wake(t))
      modifies this`tasks
      ensures View() == Apply(old(View()), if interrupted then Interrupt(t) else Wake(t))
    {
      var f := tasks[t].future;
      if interrupted {
        tasks := tasks[t := Done(tasks[t].key, Cancelled, Interrupted)];
      } else {
        tasks := tasks[t := Done(tasks[t].key, futures[f].outcome.value, OfFuture(f))];
      }
    }

    method Perform(a: Action)
      requires Enabled(View(), a)
      modifies this
      ensures View() == Apply(old(View()), a)
    {
      match a
      case Call(key) => var t := ResolveSafe(key);
      case Enter(t) => var isOwner := FirstSection(t);
      case ThreadEnds(t, outcome) => ThreadDone(t, outcome);
      case Publish(t) => LastSection(t);
      case Wake(t) => Resume(t, false);
      case Interrupt(t) => Resume(t, true);
    }

    /** Whatever the event loop schedules on a fresh resolver, its maps agree with its futures. */
    method Run(schedule: seq<Action>)
      requires View() == Init() && IsRun(View(), schedule)
      modifies this
      ensures View() == Final(Init(), schedule) && Inv(View())
      ensures cache.Keys !! inflight.Keys
      ensures forall key :: key in cache ==> SucceededFor(schedule, key, cache[key])
      ensures forall t :: 0 <= t < |tasks| && tasks[t].Done? && tasks[t].outcome.Resolved? ==>
                SucceededFor(schedule, tasks[t].key, tasks[t].outcome.path)
      ensures forall t :: 0 <= t < |tasks| && tasks[t].Done? && !tasks[t].via.Interrupted? ==>
                exists u :: Yielded(schedule, u, tasks[t].key, tasks[t].outcome)
    {
      var i := 0;
      assert schedule[0..] == schedule;
      while i < |schedule|
        invariant 0 <= i <= |schedule|
        invariant IsRun(View(), schedule[i..])
        invariant Final(View(), schedule[i..]) == Final(old(View()), schedule)
      {
        assert schedule[i..][0] == schedule[i] && schedule[i..][1..] == schedule[i + 1..];
        Perform(schedule[i]);
        i := i + 1;
      }
      RunKeepsInv(Init(), schedule);
      forall t | 0 <= t < |tasks| && tasks[t].Done? && !tasks[t].via.Interrupted?
        ensures exists u :: Yielded(schedule, u, tasks[t].key, tasks[t].outcome)
      {
        CallersAgree(schedule, t);
      }
      forall t | 0 <= t < |tasks| && tasks[t].Done? && tasks[t].outcome.Resolved?
        ensures SucceededFor(schedule, tasks[t].key, tasks[t].outcome.path)
      {
        CallersAgree(schedule, t);
      }
      forall key | key in cache ensures SucceededFor(schedule, key, cache[key]) {
        FailuresNotCached(schedule, key);
      }
    }
  }
}
