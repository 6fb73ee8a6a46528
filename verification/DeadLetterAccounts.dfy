/** Every event is accounted for: exactly by one worker, and by several when no fetch is stale. */
module DeadLetterAccounts {
  import opened DeadLetters

  // ------------------------------------------------------------------ one worker

  /** An event is in exactly one place, and its row tells its history. */
  ghost predicate Located(cfg: Config, s: State, id: nat)
    requires id < |s.failures|
  {
    if id in s.delivered then id !in s.rows && s.failures[id] < cfg.MaxFailures()
    else
      && id in s.rows && s.rows[id].attempts == s.failures[id]
      && (s.rows[id].status.Dead? ==> s.failures[id] == cfg.MaxFailures())
      && (!s.rows[id].status.Dead? ==> s.failures[id] < cfg.MaxFailures())
  }

  /** The rows a worker still has to process are as it fetched them. */
  ghost predicate Current(s: State, batch: seq<Fetched>) {
    && (forall i :: 0 <= i < |batch| ==>
          batch[i].id in s.rows && s.rows[batch[i].id] == batch[i].row && batch[i].row.status.Pending?)
    && (forall i, j :: 0 <= i < j < |batch| ==> batch[i].id != batch[j].id)
  }

  ghost predicate IsHeld(w: Worker, id: nat) { w.Holding? && w.current.id == id }

  ghost predicate Inv(cfg: Config, s: State) {
    && |s.workers| == 1
    && |s.failures| == s.nextId
    && (forall id :: id in s.rows || id in s.delivered ==> id < s.nextId)
    && (forall id :: 0 <= id < s.nextId ==> Located(cfg, s, id))
    && Current(s, s.workers[0].batch)
    && (s.workers[0].Holding? ==>
          var f := s.workers[0].current;
          && f.id in s.rows && s.rows[f.id].attempts == f.row.attempts && !s.rows[f.id].status.Dead?
          && forall i :: 0 <= i < |s.workers[0].batch| ==> s.workers[0].batch[i].id != f.id)
  }

  lemma StepKeepsLocated(cfg: Config, s: State, a: Action)
    requires Inv(cfg, s) && Enabled(s, a)
    ensures var t := Apply(cfg, s, a);
            |t.failures| == t.nextId && forall id :: 0 <= id < t.nextId ==> Located(cfg, t, id)
  {
    var t := Apply(cfg, s, a);
    forall id | 0 <= id < t.nextId ensures Located(cfg, t, id) {
      if id < s.nextId { assert Located(cfg, s, id); }
    }
  }

  lemma StepKeepsInv(cfg: Config, s: State, a: Action)
    requires Inv(cfg, s) && Enabled(s, a)
    ensures Inv(cfg, Apply(cfg, s, a))
  {
    StepKeepsLocated(cfg, s, a);
  }

  lemma {:induction false} RunKeepsInv(cfg: Config, s: State, run: seq<Action>)
    requires Inv(cfg, s) && IsRun(cfg, s, run)
    ensures Inv(cfg, Final(cfg, s, run))
    decreases run
  {
    if run != [] {
      StepKeepsInv(cfg, s, run[0]);
      RunKeepsInv(cfg, Apply(cfg, s, run[0]), run[1..]);
    }
  }

  /** Nothing crashes and no crash recovery happens during the run. */
  ghost predicate Undisturbed(run: seq<Action>) {
    forall i :: 0 <= i < |run| ==> !run[i].Recover? && !run[i].Crash?
  }

  /** A row is in progress exactly while the worker holds it. */
  ghost predicate MarkedWhenHeld(s: State) {
    |s.workers| == 1 && forall id :: id in s.rows ==> (s.rows[id].status.InProgress? <==> IsHeld(s.workers[0], id))
  }

  lemma StepKeepsMarks(cfg: Config, s: State, a: Action)
    requires Inv(cfg, s) && MarkedWhenHeld(s) && Enabled(s, a) && !a.Recover? && !a.Crash?
    ensures MarkedWhenHeld(Apply(cfg, s, a))
  {
  }

  lemma {:induction false} RunKeepsMarks(cfg: Config, s: State, run: seq<Action>)
    requires Inv(cfg, s) && MarkedWhenHeld(s) && IsRun(cfg, s, run) && Undisturbed(run)
    ensures MarkedWhenHeld(Final(cfg, s, run))
    decreases run
  {
    if run != [] {
      assert !run[0].Recover? && !run[0].Crash?;
      StepKeepsInv(cfg, s, run[0]);
      StepKeepsMarks(cfg, s, run[0]);
      RunKeepsMarks(cfg, Apply(cfg, s, run[0]), run[1..]);
    }
  }

  /**
   One worker, whatever crashes or is recovered: every event ever enqueued is delivered or has one
   row, never both; its attempts are its failed handler runs; it is dead exactly when they reach
   the maximum.  Without crash and recovery it is in progress exactly while the worker holds it.
   */
  lemma EventsAccounted(cfg: Config, clock: int, run: seq<Action>, id: nat)
    requires IsRun(cfg, Init(1, clock), run)
    requires id < Final(cfg, Init(1, clock), run).nextId
    ensures var s := Final(cfg, Init(1, clock), run);
            && |s.failures| == s.nextId && |s.workers| == 1
            && (id in s.rows <==> id !in s.delivered)
            && (id in s.rows ==> s.rows[id].attempts == s.failures[id])
            && (id in s.rows && s.rows[id].status.Dead? <==> s.failures[id] >= cfg.MaxFailures())
            && s.failures[id] <= cfg.MaxFailures()
            && (IsHeld(s.workers[0], id) ==> id in s.rows && !s.rows[id].status.Dead?)
            && (Undisturbed(run) ==>
                  (id in s.rows && s.rows[id].status.InProgress? <==> IsHeld(s.workers[0], id)))
  {
    RunKeepsInv(cfg, Init(1, clock), run);
    assert Located(cfg, Final(cfg, Init(1, clock), run), id);
    if Undisturbed(run) {
      RunKeepsMarks(cfg, Init(1, clock), run);
    }
  }

  // ------------------------------------------------------------------ many workers

  /** The row counts all failed handler runs of its event. */
  predicate Exact(s: State, id: nat)
    requires id < |s.failures|
  {
    id in s.rows ==> s.rows[id].attempts == s.failures[id]
  }

  /** A handler run of the event fails for a row that was fetched before an earlier failure. */
  predicate Lags(s: State, a: Action, id: nat)
    requires Enabled(s, a)
  {
    && a.Settle? && a.outcome.Raised? && s.workers[a.worker].current.id == id
    && s.workers[a.worker].current.row.attempts != s.failures[id]
  }

  ghost predicate NeverLags(cfg: Config, s: State, run: seq<Action>, id: nat)
    requires IsRun(cfg, s, run)
    decreases run
  {
    run == [] || (!Lags(s, run[0], id) && NeverLags(cfg, Apply(cfg, s, run[0]), run[1..], id))
  }

  /** Rows and fetched rows never count more than happened, and less only for good. */
  ghost predicate CountInv(s: State) {
    && |s.failures| == s.nextId
    && (forall id :: id in s.rows ==> id < s.nextId && s.rows[id].attempts <= s.failures[id])
    && (forall w, f :: 0 <= w < |s.workers| && Has(s.workers[w], f) ==> FetchedCount(s, f))
  }

  predicate FetchedCount(s: State, f: Fetched)
    requires |s.failures| == s.nextId
  {
    && f.id < s.nextId && f.row.attempts <= s.failures[f.id]
    && (f.id in s.rows && s.rows[f.id].attempts < s.failures[f.id] ==> f.row.attempts < s.failures[f.id])
  }

  lemma CurrentCount(s: State, w: nat)
    requires CountInv(s) && w < |s.workers| && s.workers[w].Holding?
    ensures FetchedCount(s, s.workers[w].current)
  {
    assert Has(s.workers[w], s.workers[w].current);
  }

  lemma StepKeepsCounts(cfg: Config, s: State, a: Action)
    requires CountInv(s) && Enabled(s, a)
    ensures CountInv(Apply(cfg, s, a))
  {
    var t := Apply(cfg, s, a);
    if a.Settle? {
      CurrentCount(s, a.worker);
    }
    forall w, f | 0 <= w < |t.workers| && Has(t.workers[w], f) ensures FetchedCount(t, f) {
      if a.Fetch? && w == a.worker {
        var i :| 0 <= i < |a.due| && a.due[i] == f;
      } else {
        assert Has(s.workers[w], f) && FetchedCount(s, f);
      }
    }
  }

  /** One step keeps the count of an event exact unless it lags. */
  lemma StepExact(cfg: Config, s: State, a: Action, id: nat)
    requires CountInv(s) && Enabled(s, a) && id in Apply(cfg, s, a).rows
    ensures id < s.nextId ==> id in s.rows
    ensures id < s.nextId ==> (Exact(Apply(cfg, s, a), id) <==> Exact(s, id) && !Lags(s, a, id))
    ensures id >= s.nextId ==> Exact(Apply(cfg, s, a), id) && !Lags(s, a, id)
  {
    if a.Settle? {
      CurrentCount(s, a.worker);
    }
  }

  /** A row that is gone does not come back. */
  lemma {:induction false} GoneForGood(cfg: Config, s: State, run: seq<Action>, id: nat)
    requires CountInv(s) && IsRun(cfg, s, run) && id < s.nextId && id !in s.rows
    ensures id !in Final(cfg, s, run).rows
    decreases run
  {
    if run != [] {
      StepKeepsCounts(cfg, s, run[0]);
      GoneForGood(cfg, Apply(cfg, s, run[0]), run[1..], id);
    }
  }

  lemma {:induction false} RunExact(cfg: Config, s: State, run: seq<Action>, id: nat)
    requires CountInv(s) && IsRun(cfg, s, run) && id in Final(cfg, s, run).rows
    ensures CountInv(Final(cfg, s, run))
    ensures Exact(Final(cfg, s, run), id) <==> (id < s.nextId ==> Exact(s, id)) && NeverLags(cfg, s, run, id)
    decreases run
  {
    if run != [] {
      var t := Apply(cfg, s, run[0]);
      StepKeepsCounts(cfg, s, run[0]);
      if id < t.nextId && id !in t.rows {
        GoneForGood(cfg, t, run[1..], id);
      }
      RunExact(cfg, t, run[1..], id);
      if id in t.rows {
        StepExact(cfg, s, run[0], id);
      } else {
        NotYet(cfg, s, run[0], id);
      }
    }
  }

  /** No worker can settle an event that is not enqueued yet. */
  lemma NotYet(cfg: Config, s: State, a: Action, id: nat)
    requires CountInv(s) && Enabled(s, a) && id >= Apply(cfg, s, a).nextId
    ensures id >= s.nextId && !Lags(s, a, id)
  {
    if a.Settle? {
      CurrentCount(s, a.worker);
    }
  }

  /**
   Any number of workers, with crashes and recoveries: the attempts of a row are the failed
   handler runs of its event exactly when none of these ran for a row fetched before an earlier
   failure.
   */
  lemma WhenCountsStayExact(cfg: Config, workers: nat, clock: int, run: seq<Action>, id: nat)
    requires IsRun(cfg, Init(workers, clock), run)
    requires id in Final(cfg, Init(workers, clock), run).rows
    ensures var s := Final(cfg, Init(workers, clock), run);
            && id < |s.failures|
            && s.rows[id].attempts <= s.failures[id]
            && (s.rows[id].attempts == s.failures[id] <==> NeverLags(cfg, Init(workers, clock), run, id))
  {
    RunExact(cfg, Init(workers, clock), run, id);
  }
}
