/** How long an event waits at least before it is given up, for any number of workers. */
module DeadLetterDelays {
  import opened DeadLetters

  /** base + base^1 + ... + base^a seconds: the least age of an event after `a` failures. */
  function Delay(base: int, a: nat): int {
    if a == 0 then base else Delay(base, a - 1) + Power(base, a)
  }

  /** The same in milliseconds, for an attempt count that may lie past the last retry. */
  function Age(cfg: Config, a: nat): int {
    1000 * Delay(cfg.baseBackoff, if a < cfg.MaxFailures() then a else cfg.MaxFailures() - 1)
  }

  /** No retry delay is longer than the minute that a missing handler costs. */
  ghost predicate Patient(cfg: Config) {
    forall k: nat :: 1 <= k < cfg.MaxFailures() ==> Power(cfg.baseBackoff, k) <= 60
  }

  /** What the row says about the age of its event. */
  predicate Aged(cfg: Config, clock: int, row: Row) {
    && (row.attempts > 0 ==> clock >= row.enqueuedAt + Age(cfg, row.attempts - 1))
    && (if row.status.Dead? then row.updatedAt >= row.enqueuedAt + Age(cfg, cfg.MaxFailures() - 1)
        else row.nextRetryAt >= row.enqueuedAt + Age(cfg, row.attempts))
  }

  /** A fetched row was due, and belongs to the event that still has its id. */
  ghost predicate FetchedWhenDue(cfg: Config, s: State, f: Fetched) {
    && f.id < s.nextId
    && (f.id in s.rows ==>
          && s.rows[f.id].enqueuedAt == f.row.enqueuedAt
          && s.clock >= f.row.enqueuedAt + Age(cfg, f.row.attempts)
          && (s.rows[f.id].attempts == 0 ==> f.row.attempts == 0))
  }

  /** Every fetched row satisfies what its worker may rely on. */
  ghost predicate AllFetchedWhenDue(cfg: Config, s: State) {
    forall w, f :: 0 <= w < |s.workers| && Has(s.workers[w], f) ==> FetchedWhenDue(cfg, s, f)
  }

  /** With one worker the fetched attempt counts are those of the rows. */
  ghost predicate Alone(s: State) {
    && |s.workers| == 1
    && (forall f :: Has(s.workers[0], f) && f.id in s.rows ==> s.rows[f.id].attempts == f.row.attempts)
    && (forall i, j :: 0 <= i < j < |s.workers[0].batch| ==> s.workers[0].batch[i].id != s.workers[0].batch[j].id)
    && (s.workers[0].Holding? ==> forall f <- s.workers[0].batch :: f.id != s.workers[0].current.id)
  }

  ghost predicate Inv(cfg: Config, s: State) {
    && (forall id :: id in s.rows ==> id < s.nextId && Aged(cfg, s.clock, s.rows[id]))
    && AllFetchedWhenDue(cfg, s)
    && (Patient(cfg) || |s.workers| == 0 || Alone(s))
  }

  /** One more failure adds its own delay. */
  lemma NextAge(cfg: Config, a: nat)
    ensures a + 1 < cfg.MaxFailures() ==> Age(cfg, a + 1) == Age(cfg, a) + 1000 * Power(cfg.baseBackoff, a + 1)
    ensures a + 1 >= cfg.MaxFailures() ==> Age(cfg, a + 1) == Age(cfg, a) == Age(cfg, cfg.MaxFailures() - 1)
    ensures Age(cfg, 0) == 1000 * Power(cfg.baseBackoff, 1)
  {
    assert Power(cfg.baseBackoff, 1) == cfg.baseBackoff * Power(cfg.baseBackoff, 0);
  }

  /** A settled row is as old as its new state says. */
  lemma SettledAged(cfg: Config, row: Row, f: Fetched, outcome: Outcome, clock: int, now: int)
    requires Aged(cfg, clock, row) && clock <= now && now >= f.row.enqueuedAt + Age(cfg, f.row.attempts)
    requires row.enqueuedAt == f.row.enqueuedAt && (row.attempts == 0 ==> f.row.attempts == 0)
    requires Patient(cfg) || row.attempts == f.row.attempts
    requires !outcome.Succeeded?
    ensures Aged(cfg, now, Settled(cfg, map[f.id := row], f, outcome, now)[f.id])
  {
    NextAge(cfg, f.row.attempts);
    if row.attempts > 0 {
      NextAge(cfg, row.attempts - 1);
    }
  }

  /** No worker has a row it did not have, and rows keep their event. */
  lemma OldFetches(cfg: Config, s: State, t: State)
    requires AllFetchedWhenDue(cfg, s) && s.clock <= t.clock && s.nextId <= t.nextId && |s.workers| == |t.workers|
    requires forall w, f :: 0 <= w < |t.workers| && Has(t.workers[w], f) ==> Has(s.workers[w], f)
    requires forall id :: id in t.rows && id < s.nextId ==>
               && id in s.rows && t.rows[id].enqueuedAt == s.rows[id].enqueuedAt
               && (t.rows[id].attempts == 0 ==> s.rows[id].attempts == 0)
    ensures AllFetchedWhenDue(cfg, t)
  {
    forall w, f | 0 <= w < |t.workers| && Has(t.workers[w], f) ensures FetchedWhenDue(cfg, t, f) {
      assert Has(s.workers[w], f);
      assert FetchedWhenDue(cfg, s, f);
    }
  }

  lemma EnqueueKeepsInv(cfg: Config, s: State, a: Action)
    requires Inv(cfg, s) && Enabled(s, a) && a.Enqueue?
    ensures Inv(cfg, Apply(cfg, s, a))
  {
    var t := Apply(cfg, s, a);
    NextAge(cfg, 0);
    OldFetches(cfg, s, t);
    assert Alone(s) ==> Alone(t) by {
      if Alone(s) {
        forall f | Has(t.workers[0], f) && f.id in t.rows ensures t.rows[f.id].attempts == f.row.attempts {
          assert Has(s.workers[0], f) && FetchedWhenDue(cfg, s, f);
        }
      }
    }
  }

  lemma FetchKeepsInv(cfg: Config, s: State, a: Action)
    requires Inv(cfg, s) && Enabled(s, a) && a.Fetch?
    ensures Inv(cfg, Apply(cfg, s, a))
  {
    var t := Apply(cfg, s, a);
    forall w, f | 0 <= w < |t.workers| && Has(t.workers[w], f) ensures FetchedWhenDue(cfg, t, f) {
      if w != a.worker {
        assert Has(s.workers[w], f) && FetchedWhenDue(cfg, s, f);
      } else {
        var i :| 0 <= i < |a.due| && a.due[i] == f;
        assert Aged(cfg, s.clock, s.rows[f.id]);
      }
    }
  }

  lemma ClaimKeepsAlone(cfg: Config, s: State, a: Action)
    requires Alone(s) && Enabled(s, a) && a.Claim?
    ensures Alone(Apply(cfg, s, a))
  {
    var t := Apply(cfg, s, a);
    assert s.workers[0].batch == [s.workers[0].batch[0]] + t.workers[0].batch;
    forall f | Has(t.workers[0], f) && f.id in t.rows ensures t.rows[f.id].attempts == f.row.attempts {
      assert Has(s.workers[0], f);
    }
  }

  lemma ClaimKeepsInv(cfg: Config, s: State, a: Action)
    requires Inv(cfg, s) && Enabled(s, a) && a.Claim?
    ensures Inv(cfg, Apply(cfg, s, a))
  {
    OldFetches(cfg, s, Apply(cfg, s, a));
    if Alone(s) {
      ClaimKeepsAlone(cfg, s, a);
    }
  }

  lemma SettleKeepsRows(cfg: Config, s: State, a: Action)
    requires Inv(cfg, s) && Enabled(s, a) && a.Settle?
    ensures var t := Apply(cfg, s, a); forall id :: id in t.rows ==> id < t.nextId && Aged(cfg, t.clock, t.rows[id])
  {
    var f := s.workers[a.worker].current;
    assert Has(s.workers[a.worker], f);
    assert FetchedWhenDue(cfg, s, f);
    if f.id in s.rows && !a.outcome.Succeeded? {
      assert Alone(s) ==> a.worker == 0;
      SettledAged(cfg, s.rows[f.id], f, a.outcome, s.clock, a.now);
    }
  }

  lemma SettleKeepsInv(cfg: Config, s: State, a: Action)
    requires Inv(cfg, s) && Enabled(s, a) && a.Settle?
    ensures Inv(cfg, Apply(cfg, s, a))
  {
    var t := Apply(cfg, s, a);
    SettleKeepsRows(cfg, s, a);
    OldFetches(cfg, s, t);
    if Alone(s) {
      forall f | Has(t.workers[0], f) && f.id in t.rows ensures t.rows[f.id].attempts == f.row.attempts {
        assert Has(s.workers[0], f) && f in s.workers[0].batch;
      }
    }
  }

  lemma OtherKeepsInv(cfg: Config, s: State, a: Action)
    requires Inv(cfg, s) && Enabled(s, a) && (a.Recover? || a.Crash?)
    ensures Inv(cfg, Apply(cfg, s, a))
  {
    var t := Apply(cfg, s, a);
    OldFetches(cfg, s, t);
    if Alone(s) {
      forall f | Has(t.workers[0], f) && f.id in t.rows ensures t.rows[f.id].attempts == f.row.attempts {
        assert Has(s.workers[0], f);
      }
    }
  }

  lemma {:induction false} RunKeepsInv(cfg: Config, s: State, run: seq<Action>)
    requires Inv(cfg, s) && IsRun(cfg, s, run)
    ensures Inv(cfg, Final(cfg, s, run))
    decreases run
  {
    if run != [] {
      match run[0] {
        case Enqueue(_, _) => EnqueueKeepsInv(cfg, s, run[0]);
        case Fetch(_, _, _, _) => FetchKeepsInv(cfg, s, run[0]);
        case Claim(_, _) => ClaimKeepsInv(cfg, s, run[0]);
        case Settle(_, _, _) => SettleKeepsInv(cfg, s, run[0]);
        case Recover(_) => OtherKeepsInv(cfg, s, run[0]);
        case Crash(_, _) => OtherKeepsInv(cfg, s, run[0]);
      }
      RunKeepsInv(cfg, Apply(cfg, s, run[0]), run[1..]);
    }
  }

  /**
   Whatever crashes, is recovered or has no handler for a while, no event is given up before the
   delays of all its attempts have passed: with one worker for every configuration, with several
   if no retry delay exceeds the minute that a missing handler costs.
   */
  lemma DeadNotBefore(cfg: Config, workers: nat, clock: int, run: seq<Action>, id: nat)
    requires workers <= 1 || Patient(cfg)
    requires IsRun(cfg, Init(workers, clock), run)
    requires var s := Final(cfg, Init(workers, clock), run); id in s.rows && s.rows[id].status.Dead?
    ensures var row := Final(cfg, Init(workers, clock), run).rows[id];
            row.updatedAt >= row.enqueuedAt + 1000 * Delay(cfg.baseBackoff, cfg.MaxFailures() - 1)
  {
    RunKeepsInv(cfg, Init(workers, clock), run);
  }

  /** With base 2 the delays add up to a power of two: 32 seconds for five attempts. */
  lemma {:induction false} DelayBaseTwo(max: nat)
    requires max >= 1
    ensures Delay(2, max - 1) == Power(2, max)
  {
    if max == 1 {
      assert Power(2, 1) == 2 * Power(2, 0);
    } else {
      DelayBaseTwo(max - 1);
    }
  }

  /** The defaults wait 32 seconds and are covered for any number of workers. */
  lemma DefaultDelay()
    ensures Config(5, 2).MaxFailures() == 5 && Delay(2, 4) == 32 && Patient(Config(5, 2))
  {
    DelayBaseTwo(5);
    assert Power(2, 1) == 2 && Power(2, 2) == 4 && Power(2, 3) == 8 && Power(2, 4) == 2 * Power(2, 3);
  }
}
