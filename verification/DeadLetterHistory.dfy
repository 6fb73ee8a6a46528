/** The histories of the dead letter queue, and its time stamps, in terms of what happened in a run. */
module DeadLetterHistory {
  import opened DeadLetterAccounts
  import opened DeadLetterDelays
  import opened DeadLetters

  // ------------------------------------------------------------------ what the statements do

  /** An event starts out pending, with no attempts, and waits for the base delay. */
  lemma EnqueueEffect(cfg: Config, s: State, now: int, handler: string)
    requires Enabled(s, Enqueue(now, handler))
    ensures var t := Apply(cfg, s, Enqueue(now, handler));
            && s.nextId in t.rows && t.nextId == s.nextId + 1
            && t.rows == s.rows[s.nextId := Row(handler, 0, now + 1000 * cfg.baseBackoff, Pending, now, now)]
  {
    assert Power(cfg.baseBackoff, 1) == cfg.baseBackoff * Power(cfg.baseBackoff, 0);
  }

  /** A worker that has finished its batch gets rows that are due, the longest due first, up to its limit. */
  lemma FetchEffect(cfg: Config, s: State, w: nat, now: int, limit: nat, due: seq<Fetched>, id: nat)
    requires Enabled(s, Fetch(w, now, limit, due))
    ensures s.workers[w] == Working([]) && Apply(cfg, s, Fetch(w, now, limit, due)).workers[w] == Working(due)
    ensures |due| <= limit && forall i :: 0 <= i < |due| ==>
              && due[i].id in s.rows && s.rows[due[i].id] == due[i].row
              && due[i].row.status == Pending && due[i].row.nextRetryAt <= now
    ensures forall i, j :: 0 <= i < j < |due| ==> due[i].row.nextRetryAt <= due[j].row.nextRetryAt
    ensures id in s.rows && s.rows[id].status == Pending && s.rows[id].nextRetryAt <= now && |due| < limit ==>
              Fetched(id, s.rows[id]) in due
  {
    if id in s.rows && Due(s.rows[id], now) && |due| < limit {
      var i :| 0 <= i < |due| && due[i].id == id;
      assert due[i] == Fetched(id, s.rows[id]);
    }
  }

  /** The next row of the batch is claimed if it is still pending, and stamped with the time of the claim. */
  lemma ClaimEffect(cfg: Config, s: State, w: nat, now: int)
    requires Enabled(s, Claim(w, now))
    ensures var f := s.workers[w].batch[0]; var t := Apply(cfg, s, Claim(w, now));
            && (f.id in s.rows && s.rows[f.id].status == Pending ==>
                  && t.workers[w] == Holding(f, s.workers[w].batch[1..])
                  && t.rows == s.rows[f.id := s.rows[f.id].(status := InProgress, updatedAt := now)])
            && (f.id !in s.rows || s.rows[f.id].status != Pending ==>
                  t.workers[w] == Working(s.workers[w].batch[1..]) && t.rows == s.rows)
  {
  }

  /** A missing handler costs a minute, a failure an attempt and a longer delay, or the life; a success ends it. */
  lemma SettleEffect(cfg: Config, s: State, w: nat, now: int, outcome: Outcome)
    requires Enabled(s, Settle(w, now, outcome)) && s.workers[w].current.id in s.rows
    ensures var f := s.workers[w].current; var row := s.rows[f.id]; var n := f.row.attempts + 1;
            var t := Apply(cfg, s, Settle(w, now, outcome));
            match outcome
            case NoHandler =>
              t.rows == s.rows[f.id := row.(status := Pending, nextRetryAt := now + 60000, updatedAt := now)]
            case Succeeded => f.id !in t.rows && forall id :: id in s.rows && id != f.id ==>
                                                   id in t.rows && t.rows[id] == s.rows[id]
            case Raised =>
              if n >= cfg.maxAttempts then
                t.rows == s.rows[f.id := row.(status := Dead, attempts := n, updatedAt := now)]
              else t.rows == s.rows[f.id := row.(status := Pending, attempts := n, updatedAt := now,
                                                 nextRetryAt := now + 1000 * Power(cfg.baseBackoff, n))]
  {
  }

  /** Exactly the rows in progress for more than a minute become pending again, due as before. */
  lemma RecoverEffect(cfg: Config, s: State, now: int, id: nat)
    requires Enabled(s, Recover(now)) && id in s.rows
    ensures var t := Apply(cfg, s, Recover(now)); var row := s.rows[id];
            && t.rows.Keys == s.rows.Keys
            && (row.status == InProgress && now - row.updatedAt > 60000 ==>
                  t.rows[id] == row.(status := Pending, updatedAt := now))
            && (row.status != InProgress || now - row.updatedAt <= 60000 ==> t.rows[id] == row)
  {
  }

  /** Each retry delay is the one before times the base. */
  lemma DelaysMultiply(base: int, k: nat)
    ensures Power(base, 0) == 1 && Power(base, k + 1) == base * Power(base, k)
  {
  }

  // ------------------------------------------------------------------ time

  function EnqueueTimes(run: seq<Action>): seq<int> {
    if run == [] then [] else (if run[0].Enqueue? then [run[0].now] else []) + EnqueueTimes(run[1..])
  }

  /** Rows carry the time of their enqueueing; no time stamp is later than the clock. */
  ghost predicate Stamped(s: State, times: seq<int>) {
    && |times| == s.nextId
    && forall id :: id in s.rows ==>
         id < s.nextId && s.rows[id].enqueuedAt == times[id] && s.rows[id].updatedAt <= s.clock
  }

  lemma StepStamps(cfg: Config, s: State, times: seq<int>, a: Action)
    requires Enabled(s, a) && Stamped(s, times)
    ensures Stamped(Apply(cfg, s, a), times + if a.Enqueue? then [a.now] else [])
    ensures Apply(cfg, s, a).clock == a.now
  {
  }

  lemma {:induction false} RunStamps(cfg: Config, s: State, times: seq<int>, run: seq<Action>)
    requires IsRun(cfg, s, run) && Stamped(s, times)
    ensures Stamped(Final(cfg, s, run), times + EnqueueTimes(run))
    ensures Final(cfg, s, run).clock == if run == [] then s.clock else run[|run| - 1].now
    decreases run
  {
    if run == [] {
      assert times + [] == times;
    } else {
      var own := if run[0].Enqueue? then [run[0].now] else [];
      StepStamps(cfg, s, times, run[0]);
      RunStamps(cfg, Apply(cfg, s, run[0]), times + own, run[1..]);
      assert (times + own) + EnqueueTimes(run[1..]) == times + EnqueueTimes(run);
    }
  }

  /** The time stamps after a run from the start. */
  lemma StampsOf(cfg: Config, workers: nat, clock: int, run: seq<Action>)
    requires IsRun(cfg, Init(workers, clock), run)
    ensures Stamped(Final(cfg, Init(workers, clock), run), EnqueueTimes(run))
    ensures run != [] ==> Final(cfg, Init(workers, clock), run).clock == run[|run| - 1].now
  {
    RunStamps(cfg, Init(workers, clock), [], run);
    assert [] + EnqueueTimes(run) == EnqueueTimes(run);
  }

  /** The seconds that an event waits at least before it is given up. */
  function FullDelay(cfg: Config): int {
    Delay(cfg.baseBackoff, if cfg.maxAttempts <= 1 then 0 else cfg.maxAttempts - 1)
  }

  /** When an event is dead at the end of a run, all its delays have passed since it was enqueued. */
  lemma DeadInTime(cfg: Config, workers: nat, clock: int, run: seq<Action>, id: nat)
    requires workers <= 1 || Patient(cfg)
    requires IsRun(cfg, Init(workers, clock), run)
    requires var s := Final(cfg, Init(workers, clock), run); id in s.rows && s.rows[id].status.Dead?
    ensures run != [] && id < |EnqueueTimes(run)|
    ensures run[|run| - 1].now >= EnqueueTimes(run)[id] + 1000 * FullDelay(cfg)
  {
    var s := Final(cfg, Init(workers, clock), run);
    StampsOf(cfg, workers, clock, run);
    assert s.rows[id].updatedAt <= s.clock && s.rows[id].enqueuedAt == EnqueueTimes(run)[id];
    assert s.rows[id].updatedAt >= s.rows[id].enqueuedAt + 1000 * FullDelay(cfg) by {
      DeadNotBefore(cfg, workers, clock, run, id);
    }
  }

  // ------------------------------------------------------------------ outcomes

  /** The handler runs of the event that were seen to fail. */
  function FailedRuns(cfg: Config, s: State, run: seq<Action>, id: nat): nat
    requires IsRun(cfg, s, run)
    decreases run
  {
    if run == [] then 0
    else
      (if run[0].Settle? && run[0].outcome == Raised && s.workers[run[0].worker].current.id == id then 1 else 0)
      + FailedRuns(cfg, Apply(cfg, s, run[0]), run[1..], id)
  }

  /** Some handler run of the event was seen to succeed. */
  predicate EverSucceeded(cfg: Config, s: State, run: seq<Action>, id: nat)
    requires IsRun(cfg, s, run)
    decreases run
  {
    run != [] &&
    (|| (run[0].Settle? && run[0].outcome == Succeeded && s.workers[run[0].worker].current.id == id)
     || EverSucceeded(cfg, Apply(cfg, s, run[0]), run[1..], id))
  }

  lemma {:induction false} HistoriesAre(cfg: Config, s: State, run: seq<Action>, id: nat)
    requires IsRun(cfg, s, run) && id < |Final(cfg, s, run).failures|
    ensures |s.failures| <= |Final(cfg, s, run).failures|
    ensures id < |s.failures| ==>
              Final(cfg, s, run).failures[id] == s.failures[id] + FailedRuns(cfg, s, run, id)
    ensures id >= |s.failures| ==> Final(cfg, s, run).failures[id] == FailedRuns(cfg, s, run, id)
    ensures id in Final(cfg, s, run).delivered <==> id in s.delivered || EverSucceeded(cfg, s, run, id)
    decreases run
  {
    if run != [] {
      HistoriesAre(cfg, Apply(cfg, s, run[0]), run[1..], id);
    }
  }

  /**
   One worker: after any run each event was delivered, once, or has one row; that row has counted
   every failed run of its handler, and is dead exactly from the last one allowed.
   */
  lemma EventsToldByRun(cfg: Config, clock: int, run: seq<Action>, id: nat)
    requires IsRun(cfg, Init(1, clock), run) && id < |EnqueueTimes(run)|
    ensures var s := Final(cfg, Init(1, clock), run);
            var failed := FailedRuns(cfg, Init(1, clock), run, id);
            && (id !in s.rows <==> EverSucceeded(cfg, Init(1, clock), run, id))
            && (id in s.rows ==> s.rows[id].attempts == failed)
            && (id in s.rows && s.rows[id].status == Dead <==>
                  if cfg.maxAttempts <= 1 then failed == 1 else failed == cfg.maxAttempts)
            && failed <= (if cfg.maxAttempts <= 1 then 1 else cfg.maxAttempts)
  {
    StampsOf(cfg, 1, clock, run);
    EventsAccounted(cfg, clock, run, id);
    HistoriesAre(cfg, Init(1, clock), run, id);
  }
}
