/**
 `SnapshotTransactionLock`: a lease, a snapshot of every target, and on an exception the
 restore of all snapshots in reverse order before the lease is released.
 */
module TransactionLocks {
  import opened Wrappers
  import opened Leases
  import opened Locks
  import opened Snapshots

  /** What taking one snapshot meets: its generated name, what gets evicted, a failure. */
  datatype Plan = Plan(name: Path, evicted: set<Path>, fails: bool)

  datatype Entered = Entered(store: Store, snapshots: seq<SnapshotInfo>, ok: bool)

  /** Snapshots of the existing targets, in order, up to the first failure. */
  function TakeAll(hash: Bytes -> int, files: Files, store: Store, targets: seq<Path>, plan: seq<Plan>): Entered
    requires |targets| == |plan|
    decreases targets
  {
    if targets == [] then Entered(store, [], true)
    else if targets[0] !in files then TakeAll(hash, files, store, targets[1..], plan[1..])
    else if plan[0].fails then Entered(store, [], false)
    else
      var store' := Taken(hash, files, store, targets[0], plan[0].name, plan[0].evicted);
      var rest := TakeAll(hash, files, store', targets[1..], plan[1..]);
      rest.(snapshots := [SnapshotInfo(targets[0], plan[0].name)] + rest.snapshots)
  }

  /** Entering succeeds exactly when no snapshot of an existing target fails; missing targets are skipped. */
  lemma {:induction false} WhenEntered(hash: Bytes -> int, files: Files, store: Store, targets: seq<Path>,
                                       plan: seq<Plan>)
    requires |targets| == |plan|
    ensures TakeAll(hash, files, store, targets, plan).ok
            <==> forall i :: 0 <= i < |targets| && targets[i] in files ==> !plan[i].fails
    decreases targets
  {
    if targets != [] {
      var next := if targets[0] in files && !plan[0].fails then
                    Taken(hash, files, store, targets[0], plan[0].name, plan[0].evicted)
                  else store;
      WhenEntered(hash, files, next, targets[1..], plan[1..]);
      assert forall i :: 0 <= i < |targets[1..]| ==> targets[1..][i] == targets[i + 1] && plan[1..][i] == plan[i + 1];
      assert forall i :: 0 < i < |targets| ==> targets[i] == targets[1..][i - 1] && plan[i] == plan[1..][i - 1];
    }
  }

  /** Every snapshot that an existing target needs succeeds. */
  predicate CanSnapshot(files: Files, targets: seq<Path>, plan: seq<Plan>)
    requires |targets| == |plan|
  {
    forall i :: 0 <= i < |targets| && targets[i] in files ==> !plan[i].fails
  }

  /** The last snapshot is restored first; a failing restore is logged and skipped. */
  function RestoreAll(hash: Bytes -> int, files: Files, store: Store, snapshots: seq<SnapshotInfo>): Files
    decreases |snapshots|
  {
    if snapshots == [] then files
    else
      var n := |snapshots| - 1;
      var restored := Restore(hash, files, store, snapshots[n].snapshotPath, snapshots[n].originalPath, false).1;
      RestoreAll(hash, restored, store, snapshots[..n])
  }

  class SnapshotTransactionLock {
    const locks: DistributedLockManager
    const manager: FileSnapshotManager
    const resource: string
    const agent: string
    const targets: seq<Path>
    const ttl: Option<real>
    var lockInfo: Option<Lease>
    var snapshots: seq<SnapshotInfo>

    constructor (locks: DistributedLockManager, manager: FileSnapshotManager, resource: string, agent: string,
                 targets: seq<Path>, ttl: Option<real>)
      ensures this.locks == locks && this.manager == manager && this.resource == resource && this.agent == agent
      ensures this.targets == targets && this.ttl == ttl && lockInfo == None && snapshots == []
    {
      this.locks, this.manager, this.resource, this.agent := locks, manager, resource, agent;
      this.targets, this.ttl, lockInfo, snapshots := targets, ttl, None, [];
    }

    /** Release without raising; the statement itself may fail. */
    method SafeRelease(dbError: bool)
      modifies locks
      ensures locks.rows == if dbError then old(locks.rows) else Apply(old(locks.rows), Release(resource, agent))
      ensures !dbError ==> !Holds(locks.rows, resource, agent)
    {
      var deleted := locks.ReleaseLock(resource, agent, dbError);
    }

    /** Lock first, then the snapshots; a failing snapshot gives the lock back. */
    method Enter(script: seq<Attempt>, plan: seq<Plan>, releaseError: bool) returns (entered: bool)
      requires |script| >= locks.maxRetries && |plan| == |targets|
      modifies this, locks, manager
      ensures var (acquired, rows) := Attempts(old(locks.rows), resource, agent, locks.Ttl(ttl),
                                               script[..locks.maxRetries]);
              if acquired.Refused? then
                !entered && locks.rows == rows && snapshots == old(snapshots) && manager.store == old(manager.store)
              else
                var e := TakeAll(manager.hash, manager.fs.files, old(manager.store), targets, plan);
                && entered == e.ok && lockInfo == Some(acquired.lease)
                && manager.store == e.store && snapshots == old(snapshots) + e.snapshots
                && locks.rows == (if e.ok || releaseError then rows else Apply(rows, Release(resource, agent)))
                && (!e.ok && !releaseError ==> !Holds(locks.rows, resource, agent))
      ensures entered <==>
                && Attempts(old(locks.rows), resource, agent, locks.Ttl(ttl), script[..locks.maxRetries]).0.Acquired?
                && CanSnapshot(manager.fs.files, targets, plan)
    {
      WhenEntered(manager.hash, manager.fs.files, manager.store, targets, plan);
      var acquired, slept := locks.AcquireLock(resource, agent, ttl, script);
      if acquired.Refused? {
        return false;
      }
      lockInfo := Some(acquired.lease);
      ghost var all := TakeAll(manager.hash, manager.fs.files, manager.store, targets, plan);
      assert targets[0..] == targets && plan[0..] == plan;
      var i := 0;
      while i < |targets|
        invariant 0 <= i <= |targets|
        invariant old(snapshots) <= snapshots
        invariant var e := TakeAll(manager.hash, manager.fs.files, manager.store, targets[i..], plan[i..]);
                  && all.store == e.store && all.ok == e.ok
                  && old(snapshots) + all.snapshots == snapshots + e.snapshots
        invariant locks.rows == Attempts(old(locks.rows), resource, agent, locks.Ttl(ttl), script[..locks.maxRetries]).1
        invariant lockInfo == Some(acquired.lease)
      {
        assert targets[i..][1..] == targets[i + 1..] && plan[i..][1..] == plan[i + 1..];
        if targets[i] in manager.fs.files {
          if plan[i].fails {
            SafeRelease(releaseError);
            return false;
          }
          var info := manager.CreateSnapshot(targets[i], plan[i].name, plan[i].evicted);
          snapshots := snapshots + [info.value];
        }
        i := i + 1;
      }
      entered := true;
    }

    /** On an exception every snapshot is restored; the lock is released on every path. */
    method Exit(raised: bool, releaseError: bool)
      modifies locks, manager.fs
      ensures manager.fs.files ==
              if raised then RestoreAll(manager.hash, old(manager.fs.files), manager.store, snapshots)
              else old(manager.fs.files)
      ensures !releaseError ==> !Holds(locks.rows, resource, agent)
      ensures locks.rows ==
              if releaseError || resource !in old(locks.rows) || old(locks.rows)[resource].agent != agent then
                old(locks.rows)
              else map r | r in old(locks.rows) && r != resource :: old(locks.rows)[r]
    {
      if raised {
        var n := |snapshots|;
        assert snapshots[..n] == snapshots;
        while n > 0
          invariant 0 <= n <= |snapshots|
          invariant RestoreAll(manager.hash, manager.fs.files, manager.store, snapshots[..n])
                 == RestoreAll(manager.hash, old(manager.fs.files), manager.store, snapshots)
          invariant locks.rows == old(locks.rows)
        {
          n := n - 1;
          assert snapshots[..n + 1][..n] == snapshots[..n];
          var restored := manager.RestoreSnapshot(snapshots[n].snapshotPath, snapshots[n].originalPath, false);
        }
      }
      ReleaseEffect(locks.rows, resource, agent);
      SafeRelease(releaseError);
    }
  }
}
