/** `DistributedLockManager`: the lock table updated in place. */
module Locks {
  import opened Leases
  import opened Wrappers

  datatype LockError = LockReleaseError

  class DistributedLockManager {
    const defaultTtl: real
    const maxRetries: nat
    const backoffBase: real
    const backoffMax: real
    var rows: Table

    constructor (defaultTtl: real, maxRetries: nat, backoffBase: real, backoffMax: real)
      ensures rows == map[]
      ensures this.defaultTtl == defaultTtl && this.maxRetries == maxRetries
      ensures this.backoffBase == backoffBase && this.backoffMax == backoffMax
    {
      this.defaultTtl, this.maxRetries := defaultTtl, maxRetries;
      this.backoffBase, this.backoffMax := backoffBase, backoffMax;
      rows := map[];
    }

    function Ttl(ttl: Option<real>): real {
      match ttl
      case None => defaultTtl
      case Some(seconds) => seconds
    }

    /** The upsert; its row count tells whether the lease was granted. */
    method Upsert(resource: string, agent: string, now: real, expiresAt: real) returns (rowcount: nat)
      modifies this
      ensures rows == Apply(old(rows), Acquire(resource, agent, now, expiresAt - now))
      ensures rowcount > 0 <==> resource !in old(rows) || old(rows)[resource].expiresAt < now
    {
      if resource !in rows {
        rows, rowcount := rows[resource := Lease(agent, now, expiresAt)], 1;
      } else if rows[resource].expiresAt < now {
        rows, rowcount := rows[resource := Lease(agent, now, expiresAt)], 1;
      } else {
        rowcount := 0;
      }
    }

    /** What the other agents do while this one is suspended. */
    method Suspend(others: seq<Step>)
      modifies this
      ensures rows == ApplyAll(old(rows), others)
    {
      for i := 0 to |others|
        invariant ApplyAll(rows, others[i..]) == ApplyAll(old(rows), others)
      {
        rows := Apply(rows, others[i]);
        assert others[i..][1..] == others[i + 1..];
      }
    }

    /** Retries with capped exponential backoff; `script` is what each attempt meets. */
    method AcquireLock(resource: string, agent: string, ttl: Option<real>, script: seq<Attempt>)
      returns (r: Acquisition, slept: seq<real>)
      requires |script| >= maxRetries
      modifies this
      ensures (r, rows) == Attempts(old(rows), resource, agent, Ttl(ttl), script[..maxRetries])
      ensures r.Acquired? ==>
                && resource in rows && rows[resource] == r.lease && r.lease.agent == agent
                && r.lease.expiresAt == r.lease.acquiredAt + if ttl.Some? then ttl.value else defaultTtl
      ensures r.Refused? ==> |slept| == if maxRetries == 0 then 0 else maxRetries - 1
      ensures r.Acquired? ==> |slept| < maxRetries && r.lease.acquiredAt == script[|slept|].now
      ensures forall k :: 0 <= k < |slept| ==> slept[k] == Backoff(backoffBase, backoffMax, k)
    {
      slept := [];
      var seconds := Ttl(ttl);
      var attempt := 0;
      while attempt < maxRetries
        invariant attempt <= maxRetries
        invariant Attempts(rows, resource, agent, seconds, script[attempt..maxRetries])
               == Attempts(old(rows), resource, agent, seconds, script[..maxRetries])
        invariant |slept| == if attempt < maxRetries || attempt == 0 then attempt else attempt - 1
        invariant forall k :: 0 <= k < |slept| ==> slept[k] == Backoff(backoffBase, backoffMax, k)
      {
        assert script[attempt..maxRetries][1..] == script[attempt + 1..maxRetries];
        Suspend(script[attempt].others);
        var now := script[attempt].now;
        if !script[attempt].dbError {
          var rowcount := Upsert(resource, agent, now, now + seconds);
          if rowcount > 0 {
            return Acquired(Lease(agent, now, now + seconds)), slept;
          }
        }
        if attempt < maxRetries - 1 {
          slept := slept + [Backoff(backoffBase, backoffMax, attempt)];
        }
        attempt := attempt + 1;
      }
      r := Refused;
    }

    /** `dbError` tells whether the statement fails. */
    method ReleaseLock(resource: string, agent: string, dbError: bool) returns (deleted: Result<bool, LockError>)
      modifies this
      ensures dbError ==> deleted == Err(LockReleaseError) && rows == old(rows)
      ensures !dbError ==> rows == Apply(old(rows), Release(resource, agent)) && !Holds(rows, resource, agent)
      ensures !dbError ==> deleted == Ok(resource in old(rows) && old(rows)[resource].agent == agent)
    {
      if dbError {
        return Err(LockReleaseError);
      }
      deleted := Ok(resource in rows && rows[resource].agent == agent);
      if deleted.value {
        rows := rows - {resource};
      }
    }

    method ForceReleaseLock(resource: string, dbError: bool) returns (deleted: Result<bool, LockError>)
      modifies this
      ensures dbError ==> deleted == Err(LockReleaseError) && rows == old(rows)
      ensures !dbError ==> rows == Apply(old(rows), ForceRelease(resource)) && resource !in rows
      ensures !dbError ==> deleted == Ok(resource in old(rows))
    {
      if dbError {
        return Err(LockReleaseError);
      }
      deleted := Ok(resource in rows);
      rows := rows - {resource};
    }

    /** Removes the expired rows and counts them. */
    method CleanupExpired(now: real) returns (count: nat)
      modifies this
      ensures rows == Apply(old(rows), Cleanup(now))
      ensures count == |old(rows)| - |rows|
      ensures forall r :: r in old(rows) && r !in rows ==> old(rows)[r].expiresAt < now
    {
      var kept := map r | r in rows && !(rows[r].expiresAt < now) :: rows[r];
      var expired := set r | r in rows && rows[r].expiresAt < now;
      assert kept.Keys == rows.Keys - expired;
      assert |rows.Keys| == |kept.Keys| + |expired|;
      count := |expired|;
      rows := kept;
    }
  }
}
