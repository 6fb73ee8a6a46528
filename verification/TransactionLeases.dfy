/**
 A transaction runs under a lease that its body can outlast: the lease is not renewed, and the
 exit rolls back without looking at the lock table.
 */
module TransactionLeases {
  import opened Leases
  import opened Snapshots
  import opened TransactionAtomicity
  import opened TransactionLocks

  /** From a table `t`: event `i` is the entry, which grants its lease, and event `j` is the exit. */
  ghost predicate Runs(t: Table, log: seq<Event>, i: nat, j: nat, entry: Step, at: real) {
    && Timely(log) && i < j < |log| && log[i].step == entry && log[j].at == at
    && entry.Acquire? && GrantedAt(t, log, i, entry.resource)
    && !GivenUpBetween(log, i, j, entry.resource, entry.agent)
  }

  /** In every log, nobody else is granted the resource between this entry and an exit at this time. */
  ghost predicate AlwaysCovered(entry: Step, at: real) {
    forall t: Table, log: seq<Event>, i: nat, j: nat, k: nat ::
      Runs(t, log, i, j, entry, at) && i < k < j ==> !GrantedAt(t, log, k, entry.resource)
  }

  /** Another agent takes the resource over at the moment of the exit, after the lease has expired. */
  function LateLog(entry: Step, other: string, at: real): seq<Event>
    requires entry.Acquire?
  {
    [Event(entry.read, entry), Event(at, Acquire(entry.resource, other, at, 1.0)),
     Event(at, Release(entry.resource, entry.agent))]
  }

  lemma LateLogIsLegal(entry: Step, other: string, at: real)
    requires entry.Acquire? && Granted(entry).expiresAt < at && entry.read <= at && other != entry.agent
    ensures var log := LateLog(entry, other, at);
            && Runs(map[], log, 0, 2, entry, at) && GrantedAt(map[], log, 1, entry.resource)
            && Holds(TableAt(map[], log, 2), entry.resource, other)
            && Holds(TableAt(map[], log, 3), entry.resource, other)
  {
    var log := LateLog(entry, other, at);
    assert TableAt(map[], log, 0) == map[];
    assert TableAt(map[], log, 1) == map[entry.resource := Granted(entry)];
    assert TableAt(map[], log, 2) == map[entry.resource := Granted(log[1].step)];
    assert TableAt(map[], log, 3) == TableAt(map[], log, 2);
    assert !GivesUp(log[1].step, entry.resource, entry.agent);
  }

  /**
   A body is safe from others up to its exit, the rollback included, exactly if it ends by the
   expiry of its lease; before the start there is no exit.
   */
  lemma WhenExitIsCovered(entry: Step, at: real)
    requires entry.Acquire?
    ensures AlwaysCovered(entry, at) <==> at <= Granted(entry).expiresAt || at < entry.read
  {
    if at <= Granted(entry).expiresAt || at < entry.read {
      forall t: Table, log: seq<Event>, i: nat, j: nat, k: nat | Runs(t, log, i, j, entry, at) && i < k < j
        ensures !GrantedAt(t, log, k, entry.resource)
      {
        assert log[i].at <= log[j].at;
        LeaseCovers(t, log, i, j, entry.resource);
      }
    } else {
      LateLogIsLegal(entry, entry.agent + "'", at);
      assert Runs(map[], LateLog(entry, entry.agent + "'", at), 0, 2, entry, at);
    }
  }

  /**
   A late exit: another agent holds the resource before and after it, and the rollback replaces
   whatever that agent has written to a target with the bytes of the first entry.
   */
  lemma LateExitOverwrites(acquire: Step, other: string, at: real, hash: Bytes -> int, entry: Files, store: Store,
                           targets: seq<Path>, plan: seq<Plan>, written: Files, t: Path)
    requires acquire.Acquire? && Granted(acquire).expiresAt < at && acquire.read <= at && other != acquire.agent
    requires |targets| == |plan| && GoodPlan(store, plan) && TakeAll(hash, entry, store, targets, plan).ok
    requires BackupsFirst(Existing(entry, targets))
    requires t in targets && t in entry && !SameAt(entry, written, t)
    ensures exists log ::
              && Runs(map[], log, 0, 2, acquire, at) && GrantedAt(map[], log, 1, acquire.resource)
              && Holds(TableAt(map[], log, 2), acquire.resource, other)
              && Holds(TableAt(map[], log, 3), acquire.resource, other)
    ensures var taken := TakeAll(hash, entry, store, targets, plan);
            var end := RestoreAll(hash, written, taken.store, taken.snapshots);
            SameAt(entry, end, t) && !SameAt(written, end, t)
  {
    LateLogIsLegal(acquire, other, at);
    assert Runs(map[], LateLog(acquire, other, at), 0, 2, acquire, at);
    TakenRestored(hash, entry, store, targets, plan, written, TakeAll(hash, entry, store, targets, plan).store);
  }
}
