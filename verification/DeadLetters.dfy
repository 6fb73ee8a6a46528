/**
 The dead letter queue as a protocol: rows of `dead_letter_events`, and workers that fetch due
 rows, claim one, run its handler and settle it.  Each SQL statement is one atomic step.
 */
module DeadLetters {

  datatype Status = Pending | InProgress | Dead

  /** Times are in milliseconds. */
  datatype Row = Row(handler: string, attempts: nat, nextRetryAt: int, status: Status, enqueuedAt: int, updatedAt: int)

  type Table = map<nat, Row>

  datatype Config = Config(maxAttempts: int, baseBackoff: int) {
    // A row dies at its first failure when the maximum is one or less.
    function MaxFailures(): nat { if maxAttempts < 1 then 1 else maxAttempts }
  }

  /** A row as it was when it was selected. */
  datatype Fetched = Fetched(id: nat, row: Row)

  datatype Outcome = NoHandler | Succeeded | Raised

  function Power(base: int, k: nat): int { if k == 0 then 1 else base * Power(base, k - 1) }

  function NextRetryAt(now: int, attempt: nat, base: int): int { now + Power(base, attempt) * 1000 }

  // ------------------------------------------------------------------ the statements

  function NewRow(cfg: Config, handler: string, now: int): Row {
    Row(handler, 0, NextRetryAt(now, 1, cfg.baseBackoff), Pending, now, now)
  }

  predicate Claimable(rows: Table, id: nat) { id in rows && rows[id].status.Pending? }

  function Claimed(rows: Table, id: nat, now: int): Table {
    if Claimable(rows, id) then rows[id := rows[id].(status := InProgress, updatedAt := now)] else rows
  }

  /** What happens to a claimed row; the attempt count comes from the row as it was fetched. */
  function Settled(cfg: Config, rows: Table, f: Fetched, outcome: Outcome, now: int): Table {
    if f.id !in rows then rows
    else
      var row := rows[f.id];
      match outcome
      case NoHandler => rows[f.id := row.(status := Pending, nextRetryAt := now + 60000, updatedAt := now)]
      case Succeeded => rows - {f.id}
      case Raised =>
        var attempts := f.row.attempts + 1;
        if attempts >= cfg.maxAttempts then
          rows[f.id := row.(status := Dead, updatedAt := now, attempts := attempts)]
        else
          rows[f.id := row.(status := Pending, attempts := attempts, updatedAt := now,
                            nextRetryAt := NextRetryAt(now, attempts, cfg.baseBackoff))]
  }

  predicate Stale(row: Row, now: int) { row.status.InProgress? && row.updatedAt + 60000 < now }

  function Recovered(rows: Table, now: int): Table {
    map id | id in rows :: if Stale(rows[id], now) then rows[id].(status := Pending, updatedAt := now) else rows[id]
  }

  predicate Due(row: Row, now: int) { row.status.Pending? && row.nextRetryAt <= now }

  /** An answer of the query for due rows: the ones due first, at most `limit`, current and distinct. */
  ghost predicate IsDueBatch(rows: Table, now: int, limit: nat, batch: seq<Fetched>) {
    && |batch| <= limit
    && (forall i :: 0 <= i < |batch| ==>
          batch[i].id in rows && batch[i].row == rows[batch[i].id] && Due(batch[i].row, now))
    && (forall i, j :: 0 <= i < j < |batch| ==>
          batch[i].id != batch[j].id && batch[i].row.nextRetryAt <= batch[j].row.nextRetryAt)
    && (forall id :: id in rows && Due(rows[id], now) ==>
          (exists i :: 0 <= i < |batch| && batch[i].id == id)
          || (|batch| == limit && forall i :: 0 <= i < |batch| ==> batch[i].row.nextRetryAt <= rows[id].nextRetryAt))
  }

  // ------------------------------------------------------------------ the protocol

  datatype Worker =
    | Working(batch: seq<Fetched>)
    | Holding(current: Fetched, batch: seq<Fetched>)

  datatype State = State(
    rows: Table, nextId: nat, clock: int, workers: seq<Worker>,
    failures: seq<nat>,      // history: failed handler runs of each event
    delivered: set<nat>)     // history: events whose handler succeeded

  datatype Action =
    | Enqueue(now: int, handler: string)
    | Fetch(worker: nat, now: int, limit: nat, due: seq<Fetched>)
    | Claim(worker: nat, now: int)
    | Settle(worker: nat, now: int, outcome: Outcome)
    | Recover(now: int)
    | Crash(worker: nat, now: int)   // a worker stops, wherever it is, and starts afresh

  function Init(workers: nat, clock: int): State {
    State(map[], 0, clock, seq(workers, _ => Working([])), [], {})
  }

  /** All clock readings come from one clock that never goes back. */
  ghost predicate Enabled(s: State, a: Action) {
    && a.now >= s.clock
    && match a
       case Enqueue(_, _) => true
       case Fetch(w, now, limit, due) =>
         w < |s.workers| && s.workers[w] == Working([]) && IsDueBatch(s.rows, now, limit, due)
       case Claim(w, _) => w < |s.workers| && s.workers[w].Working? && s.workers[w].batch != []
       case Settle(w, _, _) => w < |s.workers| && s.workers[w].Holding? && s.workers[w].current.id < |s.failures|
       case Recover(_) => true
       case Crash(w, _) => w < |s.workers|
  }

  function Apply(cfg: Config, s: State, a: Action): State
    requires Enabled(s, a)
  {
    match a
    case Enqueue(now, handler) =>
      s.(clock := now, rows := s.rows[s.nextId := NewRow(cfg, handler, now)], nextId := s.nextId + 1,
         failures := s.failures + [0])
    case Fetch(w, now, _, due) => s.(clock := now, workers := s.workers[w := Working(due)])
    case Claim(w, now) =>
      var f := s.workers[w].batch[0];
      var rest := s.workers[w].batch[1..];
      s.(clock := now, rows := Claimed(s.rows, f.id, now),
         workers := s.workers[w := if Claimable(s.rows, f.id) then Holding(f, rest) else Working(rest)])
    case Settle(w, now, outcome) =>
      var f := s.workers[w].current;
      s.(clock := now, rows := Settled(cfg, s.rows, f, outcome, now),
         workers := s.workers[w := Working(s.workers[w].batch)],
         failures := if outcome.Raised? then s.failures[f.id := s.failures[f.id] + 1] else s.failures,
         delivered := if outcome.Succeeded? then s.delivered + {f.id} else s.delivered)
    case Recover(now) => s.(clock := now, rows := Recovered(s.rows, now))
    case Crash(w, now) => s.(clock := now, workers := s.workers[w := Working([])])
  }

  ghost predicate IsRun(cfg: Config, s: State, run: seq<Action>)
    decreases run
  {
    run == [] || (Enabled(s, run[0]) && IsRun(cfg, Apply(cfg, s, run[0]), run[1..]))
  }

  function Final(cfg: Config, s: State, run: seq<Action>): State
    requires IsRun(cfg, s, run)
    decreases run
  {
    if run == [] then s else Final(cfg, Apply(cfg, s, run[0]), run[1..])
  }

  /** The worker has fetched the row, and not settled it yet. */
  predicate Has(w: Worker, f: Fetched) {
    (w.Holding? && w.current == f) || f in w.batch
  }

  lemma {:induction false} Extend(cfg: Config, s: State, run: seq<Action>, a: Action)
    requires IsRun(cfg, s, run) && Enabled(Final(cfg, s, run), a)
    ensures IsRun(cfg, s, run + [a])
    ensures Final(cfg, s, run + [a]) == Apply(cfg, Final(cfg, s, run), a)
    decreases run
  {
    if run == [] {
      assert run + [a] == [a];
      assert Final(cfg, s, [a]) == Final(cfg, Apply(cfg, s, a), []);
    } else {
      assert (run + [a])[1..] == run[1..] + [a];
      Extend(cfg, Apply(cfg, s, run[0]), run[1..], a);
    }
  }

  lemma {:induction false} Append(cfg: Config, s: State, run: seq<Action>, more: seq<Action>)
    requires IsRun(cfg, s, run) && IsRun(cfg, Final(cfg, s, run), more)
    ensures IsRun(cfg, s, run + more)
    ensures Final(cfg, s, run + more) == Final(cfg, Final(cfg, s, run), more)
    decreases run
  {
    if run == [] {
      assert run + more == more;
    } else {
      assert (run + more)[1..] == run[1..] + more;
      Append(cfg, Apply(cfg, s, run[0]), run[1..], more);
    }
  }

  /** The run, one action longer. */
  lemma StepTo(cfg: Config, s: State, run: seq<Action>, a: Action) returns (longer: seq<Action>, t: State)
    requires IsRun(cfg, s, run) && Enabled(Final(cfg, s, run), a)
    ensures longer == run + [a] && IsRun(cfg, s, longer)
    ensures t == Final(cfg, s, longer) == Apply(cfg, Final(cfg, s, run), a)
  {
    Extend(cfg, s, run, a);
    longer := run + [a];
    t := Final(cfg, s, longer);
  }
}
