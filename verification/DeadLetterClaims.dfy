/** The conditional claim of a row: who may run its handler at a time. */
module DeadLetterClaims {
  import opened DeadLetters

  /** Two workers are never between the claim and the settling of the same row. */
  ghost predicate Exclusive(s: State) {
    && (forall w :: 0 <= w < |s.workers| && s.workers[w].Holding? ==>
          s.workers[w].current.id in s.rows && s.rows[s.workers[w].current.id].status.InProgress?)
    && (forall v, w :: 0 <= v < w < |s.workers| && s.workers[v].Holding? && s.workers[w].Holding? ==>
          s.workers[v].current.id != s.workers[w].current.id)
    && (forall id :: id in s.rows ==> id < s.nextId)
  }

  /** Two workers are between the claim and the settling of one row. */
  ghost predicate Doubled(s: State) {
    exists v, w :: 0 <= v < |s.workers| && 0 <= w < |s.workers| && v != w && BothHold(s, v, w)
  }

  predicate BothHold(s: State, v: nat, w: nat)
    requires v < |s.workers| && w < |s.workers|
  {
    s.workers[v].Holding? && s.workers[w].Holding? && s.workers[v].current.id == s.workers[w].current.id
  }

  /** Crash recovery at `now` meets no row whose handler is still running. */
  ghost predicate NothingHeldIsStale(s: State, now: int) {
    forall w :: 0 <= w < |s.workers| && s.workers[w].Holding? && s.workers[w].current.id in s.rows ==>
      var row := s.rows[s.workers[w].current.id];
      row.status.InProgress? ==> row.updatedAt + 60000 >= now
  }

  lemma StepKeepsExclusive(cfg: Config, s: State, a: Action)
    requires Exclusive(s) && Enabled(s, a) && (a.Recover? ==> NothingHeldIsStale(s, a.now))
    ensures Exclusive(Apply(cfg, s, a))
  {
  }

  /** Whenever crash recovery happens in the run, no handler has been running for over a minute. */
  ghost predicate RecoversInTime(cfg: Config, s: State, run: seq<Action>)
    requires IsRun(cfg, s, run)
    decreases run
  {
    run != [] ==>
      && (run[0].Recover? ==> NothingHeldIsStale(s, run[0].now))
      && RecoversInTime(cfg, Apply(cfg, s, run[0]), run[1..])
  }

  lemma {:induction false} RunsExclusive(cfg: Config, s: State, run: seq<Action>)
    requires Exclusive(s) && IsRun(cfg, s, run) && RecoversInTime(cfg, s, run)
    ensures Exclusive(Final(cfg, s, run))
    decreases run
  {
    if run != [] {
      StepKeepsExclusive(cfg, s, run[0]);
      RunsExclusive(cfg, Apply(cfg, s, run[0]), run[1..]);
    }
  }

  /** Whatever the number of workers, a row is never dispatched twice at once unless recovery is too early. */
  lemma NoDoubleDispatch(cfg: Config, workers: nat, clock: int, run: seq<Action>)
    requires IsRun(cfg, Init(workers, clock), run) && RecoversInTime(cfg, Init(workers, clock), run)
    ensures !Doubled(Final(cfg, Init(workers, clock), run))
  {
    RunsExclusive(cfg, Init(workers, clock), run);
  }

  // ------------------------------------------------------------------ recovery that comes too early

  lemma {:induction false} EarliestOf(rows: Table, ids: set<nat>) returns (m: nat)
    requires ids != {} && forall id :: id in ids ==> id in rows
    ensures m in ids && forall id :: id in ids ==> rows[m].nextRetryAt <= rows[id].nextRetryAt
    decreases |ids|
  {
    m :| m in ids;
    if ids != {m} {
      var rest := EarliestOf(rows, ids - {m});
      if rows[rest].nextRetryAt < rows[m].nextRetryAt {
        m := rest;
      }
    }
  }

  /** The rows of a set, in the order of their due times. */
  lemma {:induction false} InOrder(rows: Table, ids: set<nat>) returns (batch: seq<Fetched>)
    requires forall id :: id in ids ==> id in rows
    ensures forall i :: 0 <= i < |batch| ==> batch[i].id in ids && batch[i].row == rows[batch[i].id]
    ensures forall i, j :: 0 <= i < j < |batch| ==>
              batch[i].id != batch[j].id && batch[i].row.nextRetryAt <= batch[j].row.nextRetryAt
    ensures forall id :: id in ids ==> exists i :: 0 <= i < |batch| && batch[i].id == id
    decreases |ids|
  {
    if ids == {} {
      batch := [];
    } else {
      var m := EarliestOf(rows, ids);
      var rest := InOrder(rows, ids - {m});
      batch := [Fetched(m, rows[m])] + rest;
      forall id | id in ids ensures exists i :: 0 <= i < |batch| && batch[i].id == id {
        if id == m {
          assert batch[0].id == id;
        } else {
          assert id in ids - {m};
          var i :| 0 <= i < |rest| && rest[i].id == id;
          assert batch[i + 1].id == id;
        }
      }
    }
  }

  /** A query without a limit that bites. */
  lemma DueAt(rows: Table, now: int) returns (batch: seq<Fetched>)
    ensures IsDueBatch(rows, now, |batch|, batch)
    ensures forall id :: id in rows && Due(rows[id], now) ==> exists i :: 0 <= i < |batch| && batch[i].id == id
    ensures forall i :: 0 <= i < |batch| ==> Claimable(rows, batch[i].id)
    ensures forall i, j :: 0 <= i < j < |batch| ==> batch[i].id != batch[j].id
  {
    var ids := set i | i in rows && Due(rows[i], now);
    batch := InOrder(rows, ids);
    forall id | id in rows && Due(rows[id], now) ensures exists i :: 0 <= i < |batch| && batch[i].id == id {
      assert id in ids;
    }
  }

  /** A worker that goes through a batch with the row of another worker ends up holding it, too. */
  lemma {:induction false} GoThrough(cfg: Config, s: State, v: nat, w: nat, k: nat) returns (run: seq<Action>)
    requires v < |s.workers| && w < |s.workers| && v != w && s.workers[v].Holding? && s.workers[w].Working?
    requires k < |s.workers[w].batch| && s.workers[w].batch[k].id == s.workers[v].current.id
    requires forall i :: 0 <= i <= k ==> Claimable(s.rows, s.workers[w].batch[i].id)
    requires forall i, j :: 0 <= i < j <= k ==> s.workers[w].batch[i].id != s.workers[w].batch[j].id
    requires forall id :: id in s.rows ==> id < |s.failures|
    ensures IsRun(cfg, s, run) && Doubled(Final(cfg, s, run))
    ensures forall i :: 0 <= i < |run| ==> !run[i].Recover?
    decreases k
  {
    var claim := Claim(w, s.clock);
    assert Claimable(s.rows, s.workers[w].batch[0].id);
    var t := Apply(cfg, s, claim);
    if k == 0 {
      run := [claim];
      assert BothHold(t, v, w) && Doubled(t);
      assert run[1..] == [] && Final(cfg, s, run) == t;
    } else {
      var settle := Settle(w, s.clock, NoHandler);
      var u := Apply(cfg, t, settle);
      var batch := s.workers[w].batch;
      assert u.workers[w] == Working(batch[1..]);
      forall i | 0 <= i <= k - 1 ensures Claimable(u.rows, u.workers[w].batch[i].id) {
        assert u.workers[w].batch[i] == batch[i + 1];
        assert Claimable(s.rows, batch[i + 1].id);
      }
      var rest := GoThrough(cfg, u, v, w, k - 1);
      run := [claim, settle] + rest;
      assert run[1..] == [settle] + rest && run[1..][1..] == rest;
      assert Final(cfg, s, run) == Final(cfg, t, run[1..]) == Final(cfg, u, rest);
    }
  }

  /** An idle worker fetches everything that is due once the row of another worker is. */
  lemma FetchAndGo(cfg: Config, s: State, v: nat, w: nat) returns (run: seq<Action>)
    requires v < |s.workers| && w < |s.workers| && s.workers[v].Holding? && s.workers[w] == Working([])
    requires Claimable(s.rows, s.workers[v].current.id)
    requires forall id :: id in s.rows ==> id < |s.failures|
    ensures IsRun(cfg, s, run) && Doubled(Final(cfg, s, run))
    ensures forall i :: 0 <= i < |run| ==> !run[i].Recover?
  {
    var id := s.workers[v].current.id;
    var now := if s.rows[id].nextRetryAt > s.clock then s.rows[id].nextRetryAt else s.clock;
    var batch := DueAt(s.rows, now);
    assert Due(s.rows[id], now);
    var k :| 0 <= k < |batch| && batch[k].id == id;
    var fetch := Fetch(w, now, |batch|, batch);
    var t := Apply(cfg, s, fetch);
    assert t.rows == s.rows && t.workers == s.workers[w := Working(batch)];
    var rest := GoThrough(cfg, t, v, w, k);
    run := [fetch] + rest;
    assert run[1..] == rest;
  }

  /** A stale row that is still held becomes pending, due, and is claimed again by another worker, restarted. */
  lemma RecoveryDoubles(cfg: Config, s: State, now: int, v: nat, w: nat) returns (rest: seq<Action>)
    requires Exclusive(s) && Enabled(s, Recover(now)) && |s.failures| == s.nextId
    requires v < |s.workers| && w < |s.workers| && v != w
    requires s.workers[v].Holding? && Stale(s.rows[s.workers[v].current.id], now)
    ensures var t := Apply(cfg, s, Recover(now)); IsRun(cfg, t, rest) && Doubled(Final(cfg, t, rest))
    ensures forall i :: 0 <= i < |rest| ==> !rest[i].Recover?
  {
    var t := Apply(cfg, s, Recover(now));
    var restart := Crash(w, now);
    var u := Apply(cfg, t, restart);
    assert Claimable(u.rows, u.workers[v].current.id);
    var run := FetchAndGo(cfg, u, v, w);
    rest := [restart] + run;
    assert rest[1..] == run;
  }

  /** After the recovery, without another one, some schedule lets two workers hold one row. */
  ghost predicate CanDouble(cfg: Config, s: State, now: int)
    requires Enabled(s, Recover(now))
  {
    var t := Apply(cfg, s, Recover(now));
    exists rest: seq<Action> ::
      IsRun(cfg, t, rest) && Doubled(Final(cfg, t, rest)) && forall i :: 0 <= i < |rest| ==> !rest[i].Recover?
  }

  lemma {:induction false} NoRecoveryInTime(cfg: Config, s: State, run: seq<Action>)
    requires IsRun(cfg, s, run) && forall i :: 0 <= i < |run| ==> !run[i].Recover?
    ensures RecoversInTime(cfg, s, run)
    decreases run
  {
    if run != [] {
      assert !run[0].Recover?;
      NoRecoveryInTime(cfg, Apply(cfg, s, run[0]), run[1..]);
    }
  }

  /**
   Crash recovery can lead to a double dispatch exactly when a handler has been running for over
   a minute, given a second worker.
   */
  lemma WhenRecoveryIsUnsafe(cfg: Config, s: State, now: int)
    requires Exclusive(s) && Enabled(s, Recover(now)) && |s.failures| == s.nextId && |s.workers| >= 2
    ensures CanDouble(cfg, s, now) <==> !NothingHeldIsStale(s, now)
  {
    var t := Apply(cfg, s, Recover(now));
    if NothingHeldIsStale(s, now) {
      StepKeepsExclusive(cfg, s, Recover(now));
      forall rest: seq<Action> | IsRun(cfg, t, rest) && forall i :: 0 <= i < |rest| ==> !rest[i].Recover?
        ensures !Doubled(Final(cfg, t, rest))
      {
        NoRecoveryInTime(cfg, t, rest);
        RunsExclusive(cfg, t, rest);
      }
    } else {
      var v :| 0 <= v < |s.workers| && s.workers[v].Holding? && Stale(s.rows[s.workers[v].current.id], now);
      var rest := RecoveryDoubles(cfg, s, now, v, if v == 0 then 1 else 0);
    }
  }
}
