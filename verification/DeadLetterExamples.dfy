/** Runs in which two workers, or a crash recovery, upset the accounts of the dead letter queue. */
module DeadLetterExamples {
  import opened DeadLetters
  import opened DeadLetterAccounts
  import opened DeadLetterClaims

  /** One event is enqueued and due at `now`; the first of two workers fetches and claims it. */
  lemma OneClaimed(cfg: Config, now: int) returns (run: seq<Action>, s: State)
    requires now >= 0 && now >= cfg.baseBackoff * 1000
    ensures IsRun(cfg, Init(2, 0), run) && Undisturbed(run) && s == Final(cfg, Init(2, 0), run)
    ensures var row := NewRow(cfg, "h", 0);
            s == State(map[0 := row.(status := InProgress, updatedAt := now)], 1, now,
                       [Holding(Fetched(0, row), []), Working([Fetched(0, row)])], [0], {})
  {
    var row := NewRow(cfg, "h", 0);
    var f := Fetched(0, row);
    assert Power(cfg.baseBackoff, 1) == cfg.baseBackoff * Power(cfg.baseBackoff, 0);
    run, s := StepTo(cfg, Init(2, 0), [], Enqueue(0, "h"));
    assert s.rows == map[0 := row];
    assert IsDueBatch(s.rows, now, 1, [f]);
    run, s := StepTo(cfg, Init(2, 0), run, Fetch(0, now, 1, [f]));
    run, s := StepTo(cfg, Init(2, 0), run, Fetch(1, now, 1, [f]));
    run, s := StepTo(cfg, Init(2, 0), run, Claim(0, now));
    assert s.rows == map[0 := row.(status := InProgress, updatedAt := now)];
    assert [f][1..] == [];
    assert s.workers == [Holding(f, []), Working([f])];
    assert s.failures == [0];
  }

  /** Crash recovery by a second manager restarts a handler that has run for over a minute. */
  lemma RecoveryBreaksExclusion(cfg: Config)
    ensures exists run :: IsRun(cfg, Init(2, 0), run) && Doubled(Final(cfg, Init(2, 0), run))
  {
    var now := if cfg.baseBackoff < 0 then 0 else cfg.baseBackoff * 1000;
    var run, s := OneClaimed(cfg, now);
    run, s := StepTo(cfg, Init(2, 0), run, Recover(now + 60001));
    run, s := StepTo(cfg, Init(2, 0), run, Claim(1, now + 60001));
    assert BothHold(s, 0, 1);
  }

  /** Two workers that fetched the same row count two failures as one. */
  lemma StaleFetchLosesFailure(cfg: Config)
    requires cfg.maxAttempts >= 2
    ensures exists run :: && IsRun(cfg, Init(2, 0), run) && Undisturbed(run)
                          && var s := Final(cfg, Init(2, 0), run);
                             0 in s.rows && |s.failures| == 1 && s.rows[0].attempts == 1 && s.failures[0] == 2
  {
    var now := if cfg.baseBackoff < 0 then 0 else cfg.baseBackoff * 1000;
    var run, s := OneClaimed(cfg, now);
    run, s := StepTo(cfg, Init(2, 0), run, Settle(0, now, Raised));
    run, s := StepTo(cfg, Init(2, 0), run, Claim(1, now));
    run, s := StepTo(cfg, Init(2, 0), run, Settle(1, now, Raised));
  }
}
