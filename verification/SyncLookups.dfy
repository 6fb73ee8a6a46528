/** What a sync run does to the mods themselves: how they are batched, and that each is looked up once. */
module SyncLookups {
  import opened Folds
  import opened SyncPipeline

  // ------------------------------------------------------------------ batches

  lemma {:induction false} ChunkSizes(mods: seq<Mod>, size: nat)
    requires size >= 1
    ensures forall i :: 0 <= i < |Chunks(mods, size)| ==> 1 <= |Chunks(mods, size)[i]| <= size
    ensures forall i :: 0 <= i < |Chunks(mods, size)| - 1 ==> |Chunks(mods, size)[i]| == size
  {
    if |mods| > size {
      var tail := Chunks(mods[size..], size);
      ChunkSizes(mods[size..], size);
      assert Chunks(mods, size) == [mods[..size]] + tail;
      assert forall i :: 1 <= i <= |tail| ==> Chunks(mods, size)[i] == tail[i - 1];
    }
  }

  /** Every batch but the last has `batch_size` mods, or one if that is not positive. */
  lemma BatchesAreFull(cfg: Config, modlist: seq<Mod>, run: seq<Action>)
    requires cfg.workerCount >= 1
    requires IsRun(cfg, Init(cfg, modlist), run) && Returned(Final(cfg, Init(cfg, modlist), run))
    ensures var batches := Final(cfg, Init(cfg, modlist), run).taken;
            var size := if cfg.batchSize >= 1 then cfg.batchSize else 1;
            && Flatten(batches) == modlist
            && (forall i :: 0 <= i < |batches| ==> 1 <= |batches[i]| <= size)
            && (forall i :: 0 <= i < |batches| - 1 ==> |batches[i]| == size)
  {
    ReturnedRunsAccount(cfg, modlist, run);
    ChunkSizes(modlist, cfg.ChunkSize());
  }

  // ------------------------------------------------------------------ lookups

  function NextMod(w: Worker): Mod
    requires w.Busy? && w.done < |w.batch|
  {
    w.batch[w.done]
  }

  /** The mod that an action looks up, if any. */
  function LooksUp(s: State, a: Action): seq<Mod>
    requires a.Settle? ==> IsBusy(s, a.worker) && s.workers[a.worker].done < |s.workers[a.worker].batch|
  {
    if a.Settle? then [NextMod(s.workers[a.worker])] else []
  }

  /** The mods that were looked up in the run, in the order of their outcomes. */
  function LookedUp(cfg: Config, s: State, run: seq<Action>): seq<Mod>
    requires IsRun(cfg, s, run)
    decreases run
  {
    if run == [] then [] else LooksUp(s, run[0]) + LookedUp(cfg, Apply(cfg, s, run[0]), run[1..])
  }

  /** How often `m` is among the mods of the batch in hand that have no outcome yet. */
  function Waiting(m: Mod): Worker -> nat {
    (w: Worker) => if w.Busy? && w.done <= |w.batch| then multiset(w.batch[w.done..])[m] else 0
  }

  /** How often `m` is in the batches handed out. */
  function HandedOut(s: State, m: Mod): nat {
    multiset(Flatten(s.taken))[m]
  }

  lemma TakeHandsOut(cfg: Config, s: State, w: nat, m: Mod)
    requires Enabled(cfg, s, Take(w))
    ensures var t := Apply(cfg, s, Take(w));
            SumBy(t.workers, Waiting(m)) + HandedOut(s, m) == SumBy(s.workers, Waiting(m)) + HandedOut(t, m)
  {
    var t := Apply(cfg, s, Take(w));
    SumByUpdate(s.workers, Waiting(m), w, t.workers[w]);
    if s.queue[0].Batch? {
      var b := s.queue[0].mods;
      FlattenConcat(s.taken, [b]);
      FlattenOne(b);
      assert b[0..] == b;
    }
  }

  lemma SettleLooksUp(cfg: Config, s: State, w: nat, o: Outcome, m: Mod)
    requires Enabled(cfg, s, Settle(w, o))
    ensures SumBy(Apply(cfg, s, Settle(w, o)).workers, Waiting(m)) + multiset{NextMod(s.workers[w])}[m]
            == SumBy(s.workers, Waiting(m))
  {
    var v := s.workers[w];
    SumByUpdate(s.workers, Waiting(m), w, v.(done := v.done + 1));
    assert v.batch[v.done..] == [v.batch[v.done]] + v.batch[v.done + 1..];
  }

  lemma FinishLeavesNone(cfg: Config, s: State, w: nat, m: Mod)
    requires Enabled(cfg, s, Finish(w))
    ensures SumBy(Apply(cfg, s, Finish(w)).workers, Waiting(m)) == SumBy(s.workers, Waiting(m))
  {
    SumByUpdate(s.workers, Waiting(m), w, Idle);
  }

  lemma StepHandsOut(cfg: Config, s: State, a: Action, m: Mod)
    requires Enabled(cfg, s, a)
    ensures var t := Apply(cfg, s, a);
            SumBy(t.workers, Waiting(m)) + multiset(LooksUp(s, a))[m] + HandedOut(s, m)
            == SumBy(s.workers, Waiting(m)) + HandedOut(t, m)
  {
    match a {
      case Take(w) => TakeHandsOut(cfg, s, w, m);
      case Settle(w, o) => SettleLooksUp(cfg, s, w, o, m);
      case Finish(w) => FinishLeavesNone(cfg, s, w, m);
      case _ =>
    }
  }

  /** What was handed out is looked up or still in the hands of a worker. */
  lemma {:induction false} HandedOutIsLookedUp(cfg: Config, s: State, run: seq<Action>, m: Mod)
    requires IsRun(cfg, s, run)
    ensures var t := Final(cfg, s, run);
            SumBy(t.workers, Waiting(m)) + multiset(LookedUp(cfg, s, run))[m] + HandedOut(s, m)
            == SumBy(s.workers, Waiting(m)) + HandedOut(t, m)
    decreases run
  {
    if run != [] {
      StepHandsOut(cfg, s, run[0], m);
      HandedOutIsLookedUp(cfg, Apply(cfg, s, run[0]), run[1..], m);
    }
  }

  /** A run that returns has looked up each mod of the modlist exactly as often as it is listed. */
  lemma EachLookedUpOnce(cfg: Config, modlist: seq<Mod>, run: seq<Action>)
    requires cfg.workerCount >= 1
    requires IsRun(cfg, Init(cfg, modlist), run) && Returned(Final(cfg, Init(cfg, modlist), run))
    ensures multiset(LookedUp(cfg, Init(cfg, modlist), run)) == multiset(modlist)
  {
    var s, t := Init(cfg, modlist), Final(cfg, Init(cfg, modlist), run);
    ReturnedRunsAccount(cfg, modlist, run);
    forall m: Mod ensures multiset(LookedUp(cfg, s, run))[m] == multiset(modlist)[m] {
      HandedOutIsLookedUp(cfg, s, run, m);
      SumByPositive(s.workers, Waiting(m));
      SumByPositive(t.workers, Waiting(m));
    }
  }

  // ------------------------------------------------------------------ pills, failures and waits

  function PillsSent(run: seq<Action>): nat {
    if run == [] then 0 else (if run[0].PutPill? then 1 else 0) + PillsSent(run[1..])
  }

  lemma {:induction false} PillsAreSent(cfg: Config, s: State, run: seq<Action>)
    requires IsRun(cfg, s, run)
    ensures PillsSent(run) + PillsToSend(cfg, Final(cfg, s, run)) == PillsToSend(cfg, s)
    decreases run
  {
    if run != [] {
      PillsAreSent(cfg, Apply(cfg, s, run[0]), run[1..]);
    }
  }

  predicate HasFailure(run: seq<Action>) {
    exists i :: 0 <= i < |run| && (run[i].ProducerFail? || run[i].PillTimeout? || run[i].WorkerFail?)
  }

  lemma {:induction false} FailuresStay(cfg: Config, s: State, run: seq<Action>)
    requires IsRun(cfg, s, run)
    ensures s.aborted || s.producerFailed || HasFailure(run) <==>
            Final(cfg, s, run).aborted || Final(cfg, s, run).producerFailed
    decreases run
  {
    if run != [] {
      FailuresStay(cfg, Apply(cfg, s, run[0]), run[1..]);
      if HasFailure(run) {
        var i :| 0 <= i < |run| && (run[i].ProducerFail? || run[i].PillTimeout? || run[i].WorkerFail?);
        if i > 0 {
          assert run[1..][i - 1] == run[i];
        }
      }
      if HasFailure(run[1..]) {
        var i :| 0 <= i < |run[1..]| &&
                 (run[1..][i].ProducerFail? || run[1..][i].PillTimeout? || run[1..][i].WorkerFail?);
        assert run[i + 1] == run[1..][i];
      }
      assert run[0].ProducerFail? || run[0].PillTimeout? || run[0].WorkerFail? ==> HasFailure(run);
    }
  }

  /** `run` returns only without any failure or timeout, with one pill sent for each of its workers. */
  lemma ReturnsOnlyUnharmed(cfg: Config, modlist: seq<Mod>, run: seq<Action>)
    requires IsRun(cfg, Init(cfg, modlist), run) && Returned(Final(cfg, Init(cfg, modlist), run))
    ensures !HasFailure(run)
    ensures PillsSent(run) == |Final(cfg, Init(cfg, modlist), run).workers|
            == if cfg.workerCount >= 0 then cfg.workerCount else 0
  {
    FailuresStay(cfg, Init(cfg, modlist), run);
    PillsAreSent(cfg, Init(cfg, modlist), run);
    InitInv(cfg, modlist);
    RunKeepsInv(cfg, modlist, Init(cfg, modlist), run);
  }

  /** The producer waits with a batch or a pill only for a full bounded queue. */
  lemma WaitsOnlyWhenFull(cfg: Config, modlist: seq<Mod>, s: State)
    requires Inv(cfg, modlist, s) && !s.aborted
    requires || (s.producer.Producing? && s.batch != [] && (|s.batch| >= cfg.batchSize || s.rest == []))
             || (s.producer.Poisoning? && s.producer.left > 0)
    ensures !Enabled(cfg, s, if s.producer.Producing? then PutBatch else PutPill) <==>
            cfg.queueMaxsize > 0 && |s.queue| == cfg.queueMaxsize
  {
  }
}
