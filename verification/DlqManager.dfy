/** `DLQManager`: the rows of the dead letter table and the workers on them, updated in place. */
module DlqManager {
  import opened DeadLetters
  import opened Wrappers

  class DLQManager {
    const cfg: Config
    var rows: Table
    var nextId: nat
    var workers: seq<Worker>
    ghost var clock: int
    ghost var failures: seq<nat>
    ghost var delivered: set<nat>

    constructor (cfg: Config, workers: nat, ghost clock: int)
      ensures this.cfg == cfg && View() == Init(workers, clock)
    {
      this.cfg, rows, nextId := cfg, map[], 0;
      this.workers := seq(workers, _ => Working([]));
      this.clock, failures, delivered := clock, [], {};
    }

    ghost function View(): State
      reads this
    {
      State(rows, nextId, clock, workers, failures, delivered)
    }

    method EnqueueEvent(handler: string, now: int) returns (id: nat)
      requires Enabled(View(), Enqueue(now, handler))
      modifies this
      ensures View() == Apply(cfg, old(View()), Enqueue(now, handler)) && id == old(nextId)
    {
      id := nextId;
      var nextRetry := NextRetryAt(now, 1, cfg.baseBackoff);
      rows := rows[id := Row(handler, 0, nextRetry, Pending, now, now)];
      nextId := nextId + 1;
      clock, failures := now, failures + [0];
    }

    /** The retry loop of a worker gets the answer of the query for due rows. */
    method FetchDueBatch(w: nat, now: int, limit: nat, due: seq<Fetched>)
      requires Enabled(View(), Fetch(w, now, limit, due))
      modifies this`workers, this`clock
      ensures View() == Apply(cfg, old(View()), Fetch(w, now, limit, due))
    {
      workers := workers[w := Working(due)];
      clock := now;
    }

    /** First half of `_process_row`: the conditional update that claims the row, or skips it. */
    method ClaimNext(w: nat, now: int) returns (won: bool)
      requires Enabled(View(), Claim(w, now))
      modifies this`rows, this`workers, this`clock
      ensures View() == Apply(cfg, old(View()), Claim(w, now)) && won == workers[w].Holding?
    {
      var f, rest := workers[w].batch[0], workers[w].batch[1..];
      won := f.id in rows && rows[f.id].status.Pending?;
      if won {
        rows := rows[f.id := rows[f.id].(status := InProgress, updatedAt := now)];
      }
      workers := workers[w := if won then Holding(f, rest) else Working(rest)];
      clock := now;
    }

    /** Second half: after the handler was looked up and, if it exists, has run. */
    method SettleCurrent(w: nat, registered: bool, raised: bool, now: int)
      requires Enabled(View(), Settle(w, now, OutcomeOf(registered, raised)))
      modifies this
      ensures View() == Apply(cfg, old(View()), Settle(w, now, OutcomeOf(registered, raised)))
    {
      var f := workers[w].current;
      workers := workers[w := Working(workers[w].batch)];
      clock := now;
      if !registered {
        Update(f.id, None, Pending, Some(now + 60000), now);
        return;
      }
      if raised {
        failures := failures[f.id := failures[f.id] + 1];
        var newAttempts := f.row.attempts + 1;
        if newAttempts >= cfg.maxAttempts {
          MarkDead(f, Some(newAttempts), now);
        } else {
          Update(f.id, Some(newAttempts), Pending, Some(NextRetryAt(now, newAttempts, cfg.baseBackoff)), now);
        }
      } else {
        delivered := delivered + {f.id};
        rows := rows - {f.id};
      }
    }

    static function OutcomeOf(registered: bool, raised: bool): Outcome {
      if !registered then NoHandler else if raised then Raised else Succeeded
    }

    method MarkDead(f: Fetched, attempts: Option<nat>, now: int)
      modifies this`rows
      ensures rows == if f.id in old(rows) then
                        old(rows)[f.id := old(rows)[f.id].(status := Dead, updatedAt := now,
                                          attempts := if attempts.Some? then attempts.value else f.row.attempts)]
                      else old(rows)
    {
      Update(f.id, Some(if attempts.Some? then attempts.value else f.row.attempts), Dead, None, now);
    }

    /** `UPDATE ... WHERE id = ?`; columns given as `None` keep their value. */
    method Update(id: nat, attempts: Option<nat>, status: Status, nextRetryAt: Option<int>, now: int)
      modifies this`rows
      ensures rows == if id in old(rows) then
                        var row := old(rows)[id];
                        old(rows)[id := row.(status := status, updatedAt := now,
                                             attempts := if attempts.Some? then attempts.value else row.attempts,
                                             nextRetryAt := if nextRetryAt.Some? then nextRetryAt.value
                                                            else row.nextRetryAt)]
                      else old(rows)
    {
      if id in rows {
        var row := rows[id].(status := status, updatedAt := now);
        if attempts.Some? {
          row := row.(attempts := attempts.value);
        }
        if nextRetryAt.Some? {
          row := row.(nextRetryAt := nextRetryAt.value);
        }
        rows := rows[id := row];
      }
    }

    /** Rows left in progress for over a minute become pending again. */
    method RecoverStaleRows(now: int)
      requires Enabled(View(), Recover(now))
      modifies this`rows, this`clock
      ensures View() == Apply(cfg, old(View()), Recover(now))
      ensures forall id :: id in old(rows) && !Stale(old(rows)[id], now) ==> rows[id] == old(rows)[id]
    {
      rows := map id | id in rows ::
        if rows[id].status.InProgress? && rows[id].updatedAt + 60000 < now
        then rows[id].(status := Pending, updatedAt := now) else rows[id];
      clock := now;
    }

    /** The coroutine of the worker ends, wherever it is. */
    method StopWorker(w: nat, now: int)
      requires Enabled(View(), Crash(w, now))
      modifies this`workers, this`clock
      ensures View() == Apply(cfg, old(View()), Crash(w, now))
    {
      workers := workers[w := Working([])];
      clock := now;
    }

    method Perform(a: Action)
      requires Enabled(View(), a)
      modifies this
      ensures View() == Apply(cfg, old(View()), a)
    {
      match a
      case Enqueue(now, handler) => var id := EnqueueEvent(handler, now);
      case Fetch(w, now, limit, due) => FetchDueBatch(w, now, limit, due);
      case Claim(w, now) => var won := ClaimNext(w, now);
      case Settle(w, now, outcome) => SettleCurrent(w, !outcome.NoHandler?, outcome.Raised?, now);
      case Recover(now) => RecoverStaleRows(now);
      case Crash(w, now) => StopWorker(w, now);
    }

    /** Any interleaving of publishers and workers is a run of the protocol. */
    method Run(schedule: seq<Action>)
      requires IsRun(cfg, View(), schedule)
      modifies this
      ensures View() == Final(cfg, old(View()), schedule)
    {
      var i := 0;
      assert schedule[0..] == schedule;
      while i < |schedule|
        invariant 0 <= i <= |schedule|
        invariant IsRun(cfg, View(), schedule[i..])
        invariant Final(cfg, View(), schedule[i..]) == Final(cfg, old(View()), schedule)
      {
        assert schedule[i..][0] == schedule[i] && schedule[i..][1..] == schedule[i + 1..];
        Perform(schedule[i]);
        i := i + 1;
      }
    }
  }
}
