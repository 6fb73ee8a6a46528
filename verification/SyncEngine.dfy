/**
 `SyncEngine.run` as code: the queue, the workers and the shared `SyncResult` are updated in
 place, and the event loop picks the next task freely.
 */
module SyncEngine {
  import opened SyncPipeline

  class SyncResult {
    var processed: nat
    var failed: nat
    var skipped: nat

    constructor ()
      ensures processed == failed == skipped == 0
    {
      processed, failed, skipped := 0, 0, 0;
    }

    method Record(o: Outcome)
      modifies this
      ensures processed == old(processed) + (if o.Processed? then 1 else 0)
      ensures failed == old(failed) + (if o.Failed? then 1 else 0)
      ensures skipped == old(skipped) + (if o.Skipped? then 1 else 0)
    {
      match o
      case Processed => processed := processed + 1;
      case Failed => failed := failed + 1;
      case Skipped => skipped := skipped + 1;
    }
  }

  class SyncRun {
    const cfg: Config
    const result: SyncResult
    ghost const modlist: seq<Mod>

    var rest: seq<Mod>
    var batch: seq<Mod>
    var producer: Producer
    var queue: seq<Message>
    var workers: seq<Worker>
    var producerFailed: bool
    var aborted: bool
    ghost var taken: seq<seq<Mod>>

    ghost function View(): State
      reads this, result
    {
      State(rest, batch, producer, queue, workers, result.processed, result.failed, result.skipped,
            taken, producerFailed, aborted)
    }

    constructor (cfg: Config, modlist: seq<Mod>)
      ensures fresh(result) && this.cfg == cfg && this.modlist == modlist
      ensures View() == Init(cfg, modlist)
    {
      this.cfg, this.modlist := cfg, modlist;
      result := new SyncResult();
      rest, batch, producer, queue := modlist, [], Producing, [];
      workers := seq(cfg.Workers(), _ => Idle);
      producerFailed, aborted, taken := false, false, [];
    }

    predicate QueueFull()
      reads this
      ensures QueueFull() == Full(cfg, View())
    {
      cfg.queueMaxsize > 0 && |queue| >= cfg.queueMaxsize
    }

    /** The producer reads one mod. */
    method Read()
      requires Enabled(cfg, View(), ReadMod)
      modifies this`rest, this`batch
      ensures View() == Apply(cfg, old(View()), ReadMod)
    {
      batch := batch + [rest[0]];
      rest := rest[1..];
    }

    /** `queue.put(batch)`, then a new batch is started. */
    method Put()
      requires Enabled(cfg, View(), PutBatch)
      modifies this`queue, this`batch
      ensures View() == Apply(cfg, old(View()), PutBatch)
    {
      queue := queue + [Batch(batch)];
      batch := [];
    }

    /** The `finally` block is reached, with or without an exception in flight. */
    method BeginPoison(failed: bool)
      requires Enabled(cfg, View(), if failed then ProducerFail else StartPoison)
      modifies this`producer, this`producerFailed
      ensures View() == Apply(cfg, old(View()), if failed then ProducerFail else StartPoison)
    {
      producer := Poisoning(cfg.Workers());
      if failed {
        producerFailed := true;
      }
    }

    method SendPill()
      requires Enabled(cfg, View(), PutPill)
      modifies this`queue, this`producer
      ensures View() == Apply(cfg, old(View()), PutPill)
    {
      queue := queue + [Poison];
      producer := Poisoning(producer.left - 1);
    }

    /** One iteration of `_consume` up to the first await of the batch. */
    method Get(w: nat)
      requires Enabled(cfg, View(), Take(w))
      modifies this`queue, this`workers, this`taken
      ensures View() == Apply(cfg, old(View()), Take(w))
    {
      var message := queue[0];
      queue := queue[1..];
      match message
      case Poison =>
        workers := workers[w := Exited];
      case Batch(mods) =>
        workers := workers[w := Busy(mods, 0)];
        taken := taken + [mods];
    }

    /** The lookup of the next mod of the batch has an outcome. */
    method SettleNext(w: nat, o: Outcome)
      requires Enabled(cfg, View(), Settle(w, o))
      modifies this`workers, result
      ensures View() == Apply(cfg, old(View()), Settle(w, o))
    {
      workers := workers[w := workers[w].(done := workers[w].done + 1)];
      result.Record(o);
    }

    method FinishBatch(w: nat)
      requires Enabled(cfg, View(), Finish(w))
      modifies this`workers
      ensures View() == Apply(cfg, old(View()), Finish(w))
    {
      workers := workers[w := Idle];
    }

    predicate CanSettle(w: nat)
      reads this
    {
      w < |workers| && workers[w].Busy? && workers[w].done < |workers[w].batch|
    }

    predicate CanFinish(w: nat)
      reads this
    {
      w < |workers| && workers[w].Busy? && workers[w].done >= |workers[w].batch|
    }

    predicate CanGet(w: nat)
      reads this
    {
      w < |workers| && workers[w].Idle? && queue != []
    }

    predicate CanRead()
      reads this
    {
      producer.Producing? && rest != [] && (batch == [] || |batch| < cfg.batchSize)
    }

    predicate CanPut()
      reads this
    {
      && producer.Producing? && !QueueFull() && batch != []
      && (|batch| >= cfg.batchSize || rest == [])
    }

    predicate AllExited()
      reads this
    {
      forall i :: 0 <= i < |workers| ==> workers[i].Exited?
    }

    /** The event loop resumes any task that can go on; at least one can if `possible` is. */
    method Schedule(ghost possible: Action) returns (ghost a: Action)
      requires Ordinary(possible) && Enabled(cfg, View(), possible)
      modifies this, result
      ensures Ordinary(a) && Enabled(cfg, old(View()), a)
      ensures View() == Apply(cfg, old(View()), a)
    {
      assert possible.Take? ==> CanGet(possible.worker);
      assert possible.Settle? ==> CanSettle(possible.worker);
      assert possible.Finish? ==> CanFinish(possible.worker);
      if
      case CanRead() => a := ReadMod; Read();
      case CanPut() => a := PutBatch; Put();
      case producer.Producing? && rest == [] && batch == [] => a := StartPoison; BeginPoison(false);
      case producer.Poisoning? && producer.left > 0 && !QueueFull() => a := PutPill; SendPill();
      case exists w: nat :: w < |workers| && CanGet(w) =>
        var w: nat :| w < |workers| && CanGet(w);
        a := Take(w);
        Get(w);
      case exists w: nat :: w < |workers| && CanSettle(w) =>
        var w: nat :| w < |workers| && CanSettle(w);
        var o: Outcome := *;
        a := Settle(w, o);
        SettleNext(w, o);
      case exists w: nat :: w < |workers| && CanFinish(w) =>
        var w: nat :| w < |workers| && CanFinish(w);
        a := Finish(w);
        FinishBatch(w);
    }

    /** One step of any task keeps the invariant and uses up work: no deadlock, no livelock. */
    method Advance()
      requires cfg.workerCount >= 1
      requires Inv(cfg, modlist, View()) && !View().aborted && !Drained(View())
      modifies this, result
      ensures Inv(cfg, modlist, View()) && Work(cfg, View()) < old(Work(cfg, View()))
      ensures View().aborted == old(View().aborted) && View().producerFailed == old(View().producerFailed)
    {
      ghost var s := View();
      ghost var possible := NotStuck(cfg, modlist, s);
      ghost var a := Schedule(possible);
      StepKeepsInv(cfg, modlist, s, a);
      StepUsesWork(cfg, s, a);
    }

    /**
     The whole run under an arbitrary scheduler without failures: it never deadlocks, it ends,
     and every mod has exactly one outcome.
     */
    method Run()
      requires cfg.workerCount >= 1
      requires View() == Init(cfg, modlist)
      modifies this, result
      ensures Returned(View()) && Accounted(cfg, modlist, View())
    {
      InitInv(cfg, modlist);
      while producer != Poisoning(0) || !AllExited()
        invariant Inv(cfg, modlist, View()) && !View().aborted && !View().producerFailed
        decreases Work(cfg, View())
      {
        Advance();
      }
      ReturnedAccounts(cfg, modlist, View());
    }
  }
}
