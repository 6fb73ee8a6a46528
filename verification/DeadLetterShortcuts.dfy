/**
 When several workers can give an event up too early: a second worker that fetched the row before
 its last failure, and finds no handler, shortens the retry delay to a minute.
 */
module DeadLetterShortcuts {
  import opened DeadLetters
  import opened DeadLetterDelays

  /** The only event waits for its next attempt; the first two workers are idle. */
  ghost predicate Waiting(cfg: Config, s: State, a: nat, enqueuedAt: int, due: int) {
    && s.rows.Keys == {0} && |s.failures| == 1 && s.clock <= due
    && s.rows[0].status.Pending? && s.rows[0].attempts == a
    && s.rows[0].enqueuedAt == enqueuedAt && s.rows[0].nextRetryAt == due
    && |s.workers| >= 2 && s.workers[0] == Working([]) && s.workers[1] == Working([])
  }

  /** The event was given up at `at`. */
  ghost predicate GivenUp(s: State, enqueuedAt: int, at: int) {
    && 0 in s.rows && s.rows[0].status.Dead?
    && s.rows[0].enqueuedAt == enqueuedAt && s.rows[0].updatedAt == at
  }

  lemma PowerNotNegative(base: int, k: nat)
    requires base >= 0
    ensures Power(base, k) >= 0
  {
    if k > 0 {
      PowerNotNegative(base, k - 1);
    }
  }

  lemma OnlyDue(s: State, now: int)
    requires s.rows.Keys == {0} && Due(s.rows[0], now)
    ensures IsDueBatch(s.rows, now, 1, [Fetched(0, s.rows[0])])
  {
  }

  /** One worker fetches the event as soon as it is due, and its handler fails. */
  lemma FailOnce(cfg: Config, s: State, a: nat, enqueuedAt: int, due: int) returns (run: seq<Action>)
    requires Waiting(cfg, s, a, enqueuedAt, due) && cfg.baseBackoff >= 0
    ensures IsRun(cfg, s, run)
    ensures a + 1 < cfg.MaxFailures() ==>
              Waiting(cfg, Final(cfg, s, run), a + 1, enqueuedAt, due + 1000 * Power(cfg.baseBackoff, a + 1))
    ensures a + 1 >= cfg.MaxFailures() ==> GivenUp(Final(cfg, s, run), enqueuedAt, due)
  {
    PowerNotNegative(cfg.baseBackoff, a + 1);
    OnlyDue(s, due);
    var f := Fetched(0, s.rows[0]);
    var t;
    run, t := StepTo(cfg, s, [], Fetch(0, due, 1, [f]));
    run, t := StepTo(cfg, s, run, Claim(0, due));
    assert t.workers[0] == Holding(f, []);
    run, t := StepTo(cfg, s, run, Settle(0, due, Raised));
  }

  /** Failing as early as possible, again and again. */
  lemma {:induction false} FailUntil(cfg: Config, s: State, a: nat, b: nat, enqueuedAt: int, due: int)
    returns (run: seq<Action>)
    requires Waiting(cfg, s, a, enqueuedAt, due) && cfg.baseBackoff >= 0 && a <= b < cfg.MaxFailures()
    ensures IsRun(cfg, s, run)
    ensures Waiting(cfg, Final(cfg, s, run), b, enqueuedAt,
                    due + 1000 * (Delay(cfg.baseBackoff, b) - Delay(cfg.baseBackoff, a)))
    decreases b
  {
    if a == b {
      run := [];
    } else {
      var before := FailUntil(cfg, s, a, b - 1, enqueuedAt, due);
      var late := due + 1000 * (Delay(cfg.baseBackoff, b - 1) - Delay(cfg.baseBackoff, a));
      var last := FailOnce(cfg, Final(cfg, s, before), b - 1, enqueuedAt, late);
      Append(cfg, s, before, last);
      run := before + last;
    }
  }

  /** Two workers fetch the event; the handler of the first fails, the second finds none. */
  lemma TakeShortcut(cfg: Config, s: State, a: nat, enqueuedAt: int, due: int) returns (run: seq<Action>)
    requires Waiting(cfg, s, a, enqueuedAt, due) && a + 1 < cfg.MaxFailures()
    ensures IsRun(cfg, s, run)
    ensures Waiting(cfg, Final(cfg, s, run), a + 1, enqueuedAt, due + 60000)
  {
    OnlyDue(s, due);
    var f := Fetched(0, s.rows[0]);
    var t;
    run, t := StepTo(cfg, s, [], Fetch(0, due, 1, [f]));
    OnlyDue(t, due);
    run, t := StepTo(cfg, s, run, Fetch(1, due, 1, [f]));
    run, t := StepTo(cfg, s, run, Claim(0, due));
    assert t.workers[0] == Holding(f, []) && t.workers[1] == Working([f]);
    run, t := StepTo(cfg, s, run, Settle(0, due, Raised));
    assert t.rows[0].status.Pending? && t.rows[0].attempts == a + 1;
    run, t := StepTo(cfg, s, run, Claim(1, due));
    assert t.workers[1] == Holding(f, []);
    run, t := StepTo(cfg, s, run, Settle(1, due, NoHandler));
  }

  /** Failing as early as possible until the event is given up. */
  lemma FailToDeath(cfg: Config, s: State, a: nat, enqueuedAt: int, due: int) returns (run: seq<Action>)
    requires Waiting(cfg, s, a, enqueuedAt, due) && cfg.baseBackoff >= 0 && a < cfg.MaxFailures()
    ensures IsRun(cfg, s, run)
    ensures GivenUp(Final(cfg, s, run), enqueuedAt,
                    due + 1000 * (Delay(cfg.baseBackoff, cfg.MaxFailures() - 1) - Delay(cfg.baseBackoff, a)))
  {
    var last := cfg.MaxFailures() - 1;
    var before := FailUntil(cfg, s, a, last, enqueuedAt, due);
    var late := due + 1000 * (Delay(cfg.baseBackoff, last) - Delay(cfg.baseBackoff, a));
    var after := FailOnce(cfg, Final(cfg, s, before), last, enqueuedAt, late);
    Append(cfg, s, before, after);
    run := before + after;
  }

  /** As early as possible up to the shortcut, and through it. */
  lemma FailToShortcut(cfg: Config, s: State, k: nat, enqueuedAt: int, due: int) returns (run: seq<Action>)
    requires Waiting(cfg, s, 0, enqueuedAt, due) && cfg.baseBackoff >= 0 && 1 <= k < cfg.MaxFailures()
    ensures IsRun(cfg, s, run)
    ensures Waiting(cfg, Final(cfg, s, run), k, enqueuedAt,
                    due + 1000 * (Delay(cfg.baseBackoff, k - 1) - Delay(cfg.baseBackoff, 0)) + 60000)
  {
    var before := FailUntil(cfg, s, 0, k - 1, enqueuedAt, due);
    var late := due + 1000 * (Delay(cfg.baseBackoff, k - 1) - Delay(cfg.baseBackoff, 0));
    var after := TakeShortcut(cfg, Final(cfg, s, before), k - 1, enqueuedAt, late);
    Append(cfg, s, before, after);
    run := before + after;
  }

  lemma FirstWait(cfg: Config, workers: nat) returns (s: State)
    requires workers >= 2 && cfg.baseBackoff >= 0
    ensures Enabled(Init(workers, 0), Enqueue(0, "handler")) && s == Apply(cfg, Init(workers, 0), Enqueue(0, "handler"))
    ensures Waiting(cfg, s, 0, 0, 1000 * Delay(cfg.baseBackoff, 0))
  {
    assert Power(cfg.baseBackoff, 1) == cfg.baseBackoff * Power(cfg.baseBackoff, 0);
    s := Apply(cfg, Init(workers, 0), Enqueue(0, "handler"));
  }

  lemma EarlyDeath(cfg: Config, workers: nat, k: nat) returns (run: seq<Action>, at: int)
    requires workers >= 2 && cfg.baseBackoff >= 0
    requires 1 <= k < cfg.MaxFailures() && Power(cfg.baseBackoff, k) > 60
    ensures IsRun(cfg, Init(workers, 0), run) && GivenUp(Final(cfg, Init(workers, 0), run), 0, at)
    ensures at < 1000 * Delay(cfg.baseBackoff, cfg.MaxFailures() - 1)
  {
    var s := FirstWait(cfg, workers);
    var first := FailToShortcut(cfg, s, k, 0, 1000 * Delay(cfg.baseBackoff, 0));
    var due := 1000 * Delay(cfg.baseBackoff, k - 1) + 60000;
    var second := FailToDeath(cfg, Final(cfg, s, first), k, 0, due);
    at := due + 1000 * (Delay(cfg.baseBackoff, cfg.MaxFailures() - 1) - Delay(cfg.baseBackoff, k));
    Append(cfg, s, first, second);
    run := [Enqueue(0, "handler")] + (first + second);
    assert run[1..] == first + second;
  }

  /** In every run a dead event is as old as the delays of all its attempts. */
  ghost predicate AlwaysWaits(cfg: Config, workers: nat) {
    forall clock: int, run: seq<Action>, id: nat ::
      IsRun(cfg, Init(workers, clock), run) ==>
        var s := Final(cfg, Init(workers, clock), run);
        id in s.rows && s.rows[id].status.Dead? ==>
          s.rows[id].updatedAt >= s.rows[id].enqueuedAt + 1000 * Delay(cfg.baseBackoff, cfg.MaxFailures() - 1)
  }

  /** The delays are kept exactly by a single worker, or when none of them exceeds a minute. */
  lemma WhenDelaysAreKept(cfg: Config, workers: nat)
    requires cfg.baseBackoff >= 0
    ensures AlwaysWaits(cfg, workers) <==> workers <= 1 || Patient(cfg)
  {
    if workers <= 1 || Patient(cfg) {
      forall clock: int, run: seq<Action>, id: nat | IsRun(cfg, Init(workers, clock), run)
        ensures var s := Final(cfg, Init(workers, clock), run);
                id in s.rows && s.rows[id].status.Dead? ==>
                  s.rows[id].updatedAt
                  >= s.rows[id].enqueuedAt + 1000 * Delay(cfg.baseBackoff, cfg.MaxFailures() - 1)
      {
        var s := Final(cfg, Init(workers, clock), run);
        if id in s.rows && s.rows[id].status.Dead? {
          DeadNotBefore(cfg, workers, clock, run, id);
        }
      }
    } else {
      var k: nat :| 1 <= k < cfg.MaxFailures() && Power(cfg.baseBackoff, k) > 60;
      var run, at := EarlyDeath(cfg, workers, k);
      assert 0 in Final(cfg, Init(workers, 0), run).rows;
    }
  }
}
