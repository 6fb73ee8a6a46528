/**
 The lease protocol of `DistributedLockManager`: one row per resource in `resource_locks`.
 Each SQL statement is one atomic step; the clock is read before the statement runs, so other
 agents may run statements between the two.
 */
module Leases {

  datatype Lease = Lease(agent: string, acquiredAt: real, expiresAt: real)

  type Table = map<string, Lease>

  datatype Step =
    | Acquire(resource: string, agent: string, read: real, ttl: real)
    | Release(resource: string, agent: string)
    | ForceRelease(resource: string)
    | Cleanup(read: real)

  /** The upsert writes a row unless an unexpired one is there, whoever holds it. */
  predicate Free(t: Table, resource: string, now: real) {
    resource in t ==> t[resource].expiresAt < now
  }

  predicate Holds(t: Table, resource: string, agent: string) {
    resource in t && t[resource].agent == agent
  }

  function Granted(s: Step): Lease
    requires s.Acquire?
  {
    Lease(s.agent, s.read, s.read + s.ttl)
  }

  function Apply(t: Table, s: Step): Table {
    match s
    case Acquire(r, _, read, _) => if Free(t, r, read) then t[r := Granted(s)] else t
    case Release(r, agent) => if Holds(t, r, agent) then t - {r} else t
    case ForceRelease(r) => t - {r}
    case Cleanup(read) => map r | r in t && !(t[r].expiresAt < read) :: t[r]
  }

  function ApplyAll(t: Table, steps: seq<Step>): Table
    decreases steps
  {
    if steps == [] then t else ApplyAll(Apply(t, steps[0]), steps[1..])
  }

  lemma {:induction false} ApplyAllConcat(t: Table, a: seq<Step>, b: seq<Step>)
    ensures ApplyAll(t, a + b) == ApplyAll(ApplyAll(t, a), b)
    decreases a
  {
    if a == [] {
      assert a + b == b;
    } else {
      assert (a + b)[1..] == a[1..] + b;
      ApplyAllConcat(Apply(t, a[0]), a[1..], b);
    }
  }

  // ------------------------------------------------------------------ what the statements do

  /**
   An acquisition takes the resource if it has no row or an expired one, until `ttl` seconds after
   the reading; another row of the resource, and all rows of others, stay.
   */
  lemma AcquireEffect(t: Table, resource: string, agent: string, read: real, ttl: real)
    ensures var u := Apply(t, Acquire(resource, agent, read, ttl));
            && (resource !in t || t[resource].expiresAt < read ==>
                  u == t[resource := Lease(agent, read, read + ttl)])
            && (resource in t && t[resource].expiresAt >= read ==> u == t)
  {
  }

  lemma ReleaseEffect(t: Table, resource: string, agent: string)
    ensures var u := Apply(t, Release(resource, agent));
            && (resource in t && t[resource].agent == agent ==> u == map r | r in t && r != resource :: t[r])
            && (resource !in t || t[resource].agent != agent ==> u == t)
    ensures Apply(t, ForceRelease(resource)) == map r | r in t && r != resource :: t[r]
  {
    assert t - {resource} == map r | r in t && r != resource :: t[r];
  }

  lemma CleanupEffect(t: Table, read: real)
    ensures Apply(t, Cleanup(read)) == map r | r in t && t[r].expiresAt >= read :: t[r]
  {
  }

  // ------------------------------------------------------------------ exclusion over runs

  /** A statement that ran at time `at`. */
  datatype Event = Event(at: real, step: Step)

  /** One clock for everybody: statements run in time order, after the clock reading they use. */
  ghost predicate Timely(log: seq<Event>) {
    && (forall i, j :: 0 <= i < j < |log| ==> log[i].at <= log[j].at)
    && (forall i :: 0 <= i < |log| && log[i].step.Acquire? ==> log[i].step.read <= log[i].at)
    && (forall i :: 0 <= i < |log| && log[i].step.Cleanup? ==> log[i].step.read <= log[i].at)
  }

  /** The table before the `k`-th event. */
  function TableAt(t: Table, log: seq<Event>, k: nat): Table
    requires k <= |log|
  {
    if k == 0 then t else Apply(TableAt(t, log, k - 1), log[k - 1].step)
  }

  predicate GrantedAt(t: Table, log: seq<Event>, i: nat, resource: string) {
    && i < |log| && log[i].step.Acquire? && log[i].step.resource == resource
    && Free(TableAt(t, log, i), resource, log[i].step.read)
  }

  /** The holder, or somebody by force, removes the row of the resource. */
  predicate GivesUp(s: Step, resource: string, agent: string) {
    s == Release(resource, agent) || s == ForceRelease(resource)
  }

  ghost predicate GivenUpBetween(log: seq<Event>, i: nat, j: nat, resource: string, agent: string) {
    exists k :: i < k < j <= |log| && GivesUp(log[k].step, resource, agent)
  }

  /** Until it is given up, a granted lease keeps its row for as long as it lasts. */
  lemma {:induction false} LeaseStays(t: Table, log: seq<Event>, i: nat, m: nat, resource: string)
    requires Timely(log) && GrantedAt(t, log, i, resource) && i < m <= |log|
    requires !GivenUpBetween(log, i, m, resource, log[i].step.agent)
    ensures var lease := Granted(log[i].step);
            || (resource in TableAt(t, log, m) && TableAt(t, log, m)[resource] == lease)
            || lease.expiresAt < log[m - 1].at
  {
    if m > i + 1 {
      assert !GivesUp(log[m - 1].step, resource, log[i].step.agent);
      forall k | i < k < m - 1 ensures !GivesUp(log[k].step, resource, log[i].step.agent) {
      }
      LeaseStays(t, log, i, m - 1, resource);
      assert log[m - 2].at <= log[m - 1].at;
    }
  }

  /**
   Exclusion: when a resource is granted again, the later statement runs strictly after the
   earlier lease expired, or the earlier holder gave its lease up in between.
   */
  lemma LeaseExclusion(t: Table, log: seq<Event>, i: nat, j: nat, resource: string)
    requires Timely(log) && i < j
    requires GrantedAt(t, log, i, resource) && GrantedAt(t, log, j, resource)
    ensures || Granted(log[i].step).expiresAt < log[j].at
            || GivenUpBetween(log, i, j, resource, log[i].step.agent)
  {
    if !GivenUpBetween(log, i, j, resource, log[i].step.agent) {
      LeaseStays(t, log, i, j, resource);
      assert log[j - 1].at <= log[j].at;
    }
  }

  /**
   A lease covers everything its holder does while it lasts: until it is given up, nobody is
   granted the resource before its end, and its row is there.
   */
  lemma {:induction false} LeaseCovers(t: Table, log: seq<Event>, i: nat, j: nat, resource: string)
    requires Timely(log) && i < j < |log| && GrantedAt(t, log, i, resource)
    requires !GivenUpBetween(log, i, j, resource, log[i].step.agent)
    requires log[j].at <= Granted(log[i].step).expiresAt
    ensures forall k :: i < k < j ==> !GrantedAt(t, log, k, resource)
    ensures resource in TableAt(t, log, j) && TableAt(t, log, j)[resource] == Granted(log[i].step)
  {
    LeaseStays(t, log, i, j, resource);
    assert log[j - 1].at <= log[j].at;
    forall k | i < k < j ensures !GrantedAt(t, log, k, resource) {
      if GrantedAt(t, log, k, resource) {
        LeaseExclusion(t, log, i, k, resource);
        assert log[k].at <= log[j].at;
        assert GivenUpBetween(log, i, j, resource, log[i].step.agent);
        assert false;
      }
    }
  }

  /** A cleanup between the two events that also removes the row of the lease. */
  ghost predicate CleanedBetween(log: seq<Event>, i: nat, j: nat, lease: Lease) {
    exists k :: i < k < j <= |log| && Clears(log[k].step, lease)
  }

  predicate Clears(s: Step, lease: Lease) { s.Cleanup? && lease.expiresAt < s.read }

  /** The lease is neither given up nor granted to anybody before the event `j`. */
  ghost predicate LastBefore(t: Table, log: seq<Event>, i: nat, j: nat, resource: string) {
    && i < j <= |log| && GrantedAt(t, log, i, resource)
    && !GivenUpBetween(log, i, j, resource, log[i].step.agent)
    && forall k :: i < k < j ==> !GrantedAt(t, log, k, resource)
  }

  /** Such a lease keeps its row exactly until a cleanup finds it expired. */
  lemma {:induction false} RowUntilCleanup(t: Table, log: seq<Event>, i: nat, m: nat, resource: string)
    requires LastBefore(t, log, i, m, resource)
    ensures var lease := Granted(log[i].step);
            if CleanedBetween(log, i, m, lease) then resource !in TableAt(t, log, m)
            else resource in TableAt(t, log, m) && TableAt(t, log, m)[resource] == lease
    decreases m
  {
    var lease := Granted(log[i].step);
    if m > i + 1 {
      assert LastBefore(t, log, i, m - 1, resource) by {
        forall k | i < k < m - 1 ensures !GivesUp(log[k].step, resource, log[i].step.agent) {
        }
      }
      RowUntilCleanup(t, log, i, m - 1, resource);
      assert !GivesUp(log[m - 1].step, resource, log[i].step.agent);
      assert !GrantedAt(t, log, m - 1, resource);
      if k :| i < k < m - 1 && Clears(log[k].step, lease) {
        assert CleanedBetween(log, i, m, lease);
      } else if Clears(log[m - 1].step, lease) {
        assert CleanedBetween(log, i, m, lease);
      }
    }
  }

  /**
   The next lease of a resource is recorded after the end of this one, whatever clock reading it
   uses, exactly when no cleanup has removed the expired row in between.
   */
  lemma WhenRecordsAreDisjoint(t: Table, log: seq<Event>, i: nat, j: nat, resource: string)
    requires LastBefore(t, log, i, j, resource)
    ensures var lease := Granted(log[i].step);
            (forall read: real :: Free(TableAt(t, log, j), resource, read) ==> lease.expiresAt < read)
            <==> !CleanedBetween(log, i, j, lease)
  {
    RowUntilCleanup(t, log, i, j, resource);
    var lease := Granted(log[i].step);
    if CleanedBetween(log, i, j, lease) {
      assert Free(TableAt(t, log, j), resource, lease.expiresAt);
    }
  }

  /**
   The recorded intervals are disjoint, too, when the clock is read as the statement runs, or when
   no cleanup came in between two grants in a row.
   */
  lemma RecordedLeasesDisjoint(t: Table, log: seq<Event>, i: nat, j: nat, resource: string)
    requires Timely(log) && i < j
    requires GrantedAt(t, log, i, resource) && GrantedAt(t, log, j, resource)
    requires log[j].step.read == log[j].at
             || (LastBefore(t, log, i, j, resource) && !CleanedBetween(log, i, j, Granted(log[i].step)))
    ensures || Granted(log[i].step).expiresAt < Granted(log[j].step).acquiredAt
            || GivenUpBetween(log, i, j, resource, log[i].step.agent)
  {
    if log[j].step.read == log[j].at {
      LeaseExclusion(t, log, i, j, resource);
    } else {
      RowUntilCleanup(t, log, i, j, resource);
    }
  }

  function StaleLog(): seq<Event> {
    [Event(0.0, Acquire("esm", "a", 0.0, 10.0)),
     Event(11.0, Cleanup(11.0)),
     Event(12.0, Acquire("esm", "b", 5.0, 10.0))]
  }

  /**
   With a stale clock reading the recorded interval can overlap the earlier one: a cleanup has
   removed the expired row, so the upsert compares nothing.
   */
  lemma StaleReadRecordsOverlap()
    ensures Timely(StaleLog())
    ensures GrantedAt(map[], StaleLog(), 0, "esm") && GrantedAt(map[], StaleLog(), 2, "esm")
    ensures Granted(StaleLog()[2].step).acquiredAt < Granted(StaleLog()[0].step).expiresAt
    ensures !GivenUpBetween(StaleLog(), 0, 2, "esm", "a")
  {
    var log := StaleLog();
    assert TableAt(map[], log, 0) == map[];
    assert TableAt(map[], log, 1) == map["esm" := Lease("a", 0.0, 10.0)];
    assert TableAt(map[], log, 2) == map[];
    assert !GivesUp(log[1].step, "esm", "a");
  }

  // ------------------------------------------------------------------ acquisition with retries

  /** What one attempt meets: the steps others took since the last one, the clock, the database. */
  datatype Attempt = Attempt(others: seq<Step>, now: real, dbError: bool)

  datatype Acquisition = Acquired(lease: Lease) | Refused

  /** The first attempt that finds the resource free takes it. */
  function Attempts(t: Table, resource: string, agent: string, ttl: real, script: seq<Attempt>): (Acquisition, Table)
    decreases script
  {
    if script == [] then (Refused, t)
    else
      var seen := ApplyAll(t, script[0].others);
      if !script[0].dbError && Free(seen, resource, script[0].now) then
        var lease := Lease(agent, script[0].now, script[0].now + ttl);
        (Acquired(lease), seen[resource := lease])
      else Attempts(seen, resource, agent, ttl, script[1..])
  }

  /** The protocol steps of an acquisition: every failed attempt is a step that changes nothing. */
  function StepsOf(t: Table, resource: string, agent: string, ttl: real, script: seq<Attempt>): seq<Step>
    decreases script
  {
    if script == [] then []
    else
      var seen := ApplyAll(t, script[0].others);
      var own := if script[0].dbError then [] else [Acquire(resource, agent, script[0].now, ttl)];
      script[0].others + own
      + if !script[0].dbError && Free(seen, resource, script[0].now) then []
        else StepsOf(seen, resource, agent, ttl, script[1..])
  }

  /** So the retry loop adds nothing to the protocol. */
  lemma {:induction false} AttemptsAreSteps(t: Table, resource: string, agent: string, ttl: real, script: seq<Attempt>)
    ensures Attempts(t, resource, agent, ttl, script).1 == ApplyAll(t, StepsOf(t, resource, agent, ttl, script))
    decreases script
  {
    if script != [] {
      var seen := ApplyAll(t, script[0].others);
      var own := if script[0].dbError then [] else [Acquire(resource, agent, script[0].now, ttl)];
      var stop := !script[0].dbError && Free(seen, resource, script[0].now);
      var tail := if stop then [] else StepsOf(seen, resource, agent, ttl, script[1..]);
      ApplyAllConcat(t, script[0].others + own, tail);
      ApplyAllConcat(t, script[0].others, own);
      assert own != [] ==> own[1..] == [];
      AttemptsAreSteps(seen, resource, agent, ttl, script[1..]);
    }
  }

  /** A failed attempt only lets time pass for the steps of others. */
  lemma AttemptFails(t: Table, resource: string, agent: string, ttl: real, a: Attempt)
    requires a.dbError || !Free(ApplyAll(t, a.others), resource, a.now)
    ensures ApplyAll(t, a.others + if a.dbError then [] else [Acquire(resource, agent, a.now, ttl)])
            == ApplyAll(t, a.others)
  {
    var own := if a.dbError then [] else [Acquire(resource, agent, a.now, ttl)];
    ApplyAllConcat(t, a.others, own);
    assert own != [] ==> own[1..] == [];
  }

  /** The last of the steps is granted, with this lease. */
  ghost predicate EndsInGrant(t: Table, steps: seq<Step>, resource: string, agent: string, lease: Lease) {
    && steps != []
    && var n, last := |steps| - 1, steps[|steps| - 1];
       && last.Acquire? && last.resource == resource && last.agent == agent
       && Free(ApplyAll(t, steps[..n]), resource, last.read) && Granted(last) == lease
  }

  lemma GrantAfter(t: Table, first: seq<Step>, rest: seq<Step>, resource: string, agent: string, lease: Lease)
    requires EndsInGrant(ApplyAll(t, first), rest, resource, agent, lease)
    ensures EndsInGrant(t, first + rest, resource, agent, lease)
  {
    var all := first + rest;
    assert all[..|all| - 1] == first + rest[..|rest| - 1];
    ApplyAllConcat(t, first, rest[..|rest| - 1]);
  }

  /** The lease that an acquisition returns is the one granted by the last of its steps. */
  lemma {:induction false} AcquiredIsGranted(t: Table, resource: string, agent: string, ttl: real, script: seq<Attempt>)
    requires Attempts(t, resource, agent, ttl, script).0.Acquired?
    ensures EndsInGrant(t, StepsOf(t, resource, agent, ttl, script), resource, agent,
                        Attempts(t, resource, agent, ttl, script).0.lease)
    decreases script
  {
    var seen := ApplyAll(t, script[0].others);
    var own := if script[0].dbError then [] else [Acquire(resource, agent, script[0].now, ttl)];
    if !script[0].dbError && Free(seen, resource, script[0].now) {
      assert StepsOf(t, resource, agent, ttl, script) == script[0].others + own;
      assert own[..0] == [];
      GrantAfter(t, script[0].others, own, resource, agent, Granted(own[0]));
    } else {
      var rest := StepsOf(seen, resource, agent, ttl, script[1..]);
      assert StepsOf(t, resource, agent, ttl, script) == script[0].others + own + rest;
      AcquiredIsGranted(seen, resource, agent, ttl, script[1..]);
      AttemptFails(t, resource, agent, ttl, script[0]);
      GrantAfter(t, script[0].others + own, rest, resource, agent,
                 Attempts(seen, resource, agent, ttl, script[1..]).0.lease);
    }
  }

  /** The table that attempt `i` meets when all earlier ones failed. */
  function SeenAt(t: Table, script: seq<Attempt>, i: nat): Table
    requires i < |script|
  {
    ApplyAll(if i == 0 then t else SeenAt(t, script, i - 1), script[i].others)
  }

  /** Attempt `i` reaches the database, and finds no row or an expired one. */
  predicate Succeeds(t: Table, resource: string, script: seq<Attempt>, i: nat)
    requires i < |script|
  {
    && !script[i].dbError
    && (resource !in SeenAt(t, script, i) || SeenAt(t, script, i)[resource].expiresAt < script[i].now)
  }

  lemma {:induction false} SeenLater(t: Table, script: seq<Attempt>, i: nat)
    requires 0 < i < |script|
    ensures SeenAt(t, script, i) == SeenAt(ApplyAll(t, script[0].others), script[1..], i - 1)
  {
    if i > 1 {
      SeenLater(t, script, i - 1);
    }
  }

  /** The first attempt that can succeed does, with its own clock reading; without one the lock is refused. */
  lemma {:induction false} FirstChanceIsTaken(t: Table, resource: string, agent: string, ttl: real,
                                              script: seq<Attempt>, i: nat)
    requires i <= |script| && forall k :: 0 <= k < i ==> !Succeeds(t, resource, script, k)
    ensures i < |script| && Succeeds(t, resource, script, i) ==>
              Attempts(t, resource, agent, ttl, script).0 == Acquired(Lease(agent, script[i].now, script[i].now + ttl))
    ensures i == |script| ==> Attempts(t, resource, agent, ttl, script).0 == Refused
    decreases script
  {
    if script != [] {
      var seen := ApplyAll(t, script[0].others);
      assert SeenAt(t, script, 0) == seen;
      if i > 0 {
        assert !Succeeds(t, resource, script, 0);
        forall k | 0 <= k < i - 1 ensures !Succeeds(seen, resource, script[1..], k) {
          SeenLater(t, script, k + 1);
          assert !Succeeds(t, resource, script, k + 1);
        }
        if i < |script| {
          SeenLater(t, script, i);
        }
        FirstChanceIsTaken(seen, resource, agent, ttl, script[1..], i - 1);
      }
    }
  }

  function Pow2(k: nat): nat { if k == 0 then 1 else 2 * Pow2(k - 1) }

  function Backoff(base: real, max: real, attempt: nat): real {
    var delay := base * (Pow2(attempt) as real);
    if delay <= max then delay else max
  }

  /** The delay starts at the base, doubles with each attempt, and is capped. */
  lemma BackoffDoubles(base: real, max: real, attempt: nat)
    requires base >= 0.0
    ensures Backoff(base, max, 0) == if base <= max then base else max
    ensures var d := Backoff(base, max, attempt); max >= 0.0 ==>
              Backoff(base, max, attempt + 1) == if 2.0 * d <= max then 2.0 * d else max
    ensures Backoff(base, max, attempt) <= max
  {
    var p := Pow2(attempt) as real;
    assert Pow2(attempt + 1) as real == 2.0 * p;
    assert base * (2.0 * p) == 2.0 * (base * p);
    assert base * p >= 0.0;
  }
}
