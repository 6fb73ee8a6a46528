/**
 The producer-consumer pipeline of `SyncEngine.run`: one producer, a pool of workers, a
 bounded FIFO queue and one poison pill per worker.  Every `await` is a point where the
 event loop may switch task, so a run is any sequence of the actions below.
 */
module SyncPipeline {
  import opened Folds

  datatype Mod = Mod(name: string, enabled: bool)

  datatype Message = Batch(mods: seq<Mod>) | Poison

  /** What the lookup of one mod adds to the result. */
  datatype Outcome = Processed | Failed | Skipped

  datatype Worker = Idle | Busy(batch: seq<Mod>, done: nat) | Exited

  /** The producer reads the modlist, then sends its pills (`left` are still to be sent). */
  datatype Producer = Producing | Poisoning(left: nat)

  datatype Config = Config(workerCount: int, batchSize: int, queueMaxsize: int) {
    // `range(n)` is empty for a negative count.
    function Workers(): nat { if workerCount < 0 then 0 else workerCount }

    // The size test follows the append, so a batch holds at least one mod.
    function ChunkSize(): nat { if batchSize < 1 then 1 else batchSize }
  }

  datatype State = State(
    rest: seq<Mod>,            // the part of the modlist not read yet
    batch: seq<Mod>,           // the batch being filled
    producer: Producer,
    queue: seq<Message>,
    workers: seq<Worker>,
    processed: nat, failed: nat, skipped: nat,
    taken: seq<seq<Mod>>,      // history: the batches handed to workers, in order
    producerFailed: bool,      // the read or a put failed; the pills are still sent
    aborted: bool)             // the task group is cancelling its tasks

  datatype Action =
    | ReadMod | PutBatch | StartPoison | PutPill
    | Take(worker: nat) | Settle(worker: nat, outcome: Outcome) | Finish(worker: nat)
    | ProducerFail | PillTimeout | WorkerFail(worker: nat)

  /** The actions that are not failures or timeouts. */
  predicate Ordinary(a: Action) {
    !a.ProducerFail? && !a.PillTimeout? && !a.WorkerFail?
  }

  function Init(cfg: Config, modlist: seq<Mod>): State {
    State(modlist, [], Producing, [], seq(cfg.Workers(), _ => Idle), 0, 0, 0, [], false, false)
  }

  /** `asyncio.Queue` is unbounded when its maximum size is not positive. */
  predicate Full(cfg: Config, s: State) {
    cfg.queueMaxsize > 0 && |s.queue| >= cfg.queueMaxsize
  }

  predicate BatchDue(cfg: Config, s: State) {
    s.batch != [] && |s.batch| >= cfg.batchSize
  }

  predicate IsBusy(s: State, w: nat) {
    w < |s.workers| && s.workers[w].Busy?
  }

  predicate Enabled(cfg: Config, s: State, a: Action) {
    && !s.aborted
    && match a
       case ReadMod => s.producer.Producing? && s.rest != [] && !BatchDue(cfg, s)
       case PutBatch =>
         && s.producer.Producing? && !Full(cfg, s)
         && (BatchDue(cfg, s) || (s.rest == [] && s.batch != []))
       case StartPoison => s.producer.Producing? && s.rest == [] && s.batch == []
       case PutPill => s.producer.Poisoning? && s.producer.left > 0 && !Full(cfg, s)
       case Take(w) => w < |s.workers| && s.workers[w].Idle? && s.queue != []
       case Settle(w, _) => IsBusy(s, w) && s.workers[w].done < |s.workers[w].batch|
       case Finish(w) => IsBusy(s, w) && s.workers[w].done >= |s.workers[w].batch|
       case ProducerFail => s.producer.Producing?
       case PillTimeout => s.producer.Poisoning? && s.producer.left > 0 && Full(cfg, s)
       case WorkerFail(w) => IsBusy(s, w)
  }

  function Count(s: State, o: Outcome): State {
    match o
    case Processed => s.(processed := s.processed + 1)
    case Failed => s.(failed := s.failed + 1)
    case Skipped => s.(skipped := s.skipped + 1)
  }

  function Apply(cfg: Config, s: State, a: Action): State
    requires Enabled(cfg, s, a)
  {
    match a
    case ReadMod => s.(rest := s.rest[1..], batch := s.batch + [s.rest[0]])
    case PutBatch => s.(queue := s.queue + [Batch(s.batch)], batch := [])
    case StartPoison => s.(producer := Poisoning(cfg.Workers()))
    case PutPill => s.(queue := s.queue + [Poison], producer := Poisoning(s.producer.left - 1))
    case Take(w) =>
      (match s.queue[0]
       case Poison => s.(queue := s.queue[1..], workers := s.workers[w := Exited])
       case Batch(b) => s.(queue := s.queue[1..], workers := s.workers[w := Busy(b, 0)], taken := s.taken + [b]))
    case Settle(w, o) =>
      Count(s.(workers := s.workers[w := s.workers[w].(done := s.workers[w].done + 1)]), o)
    case Finish(w) => s.(workers := s.workers[w := Idle])
    case ProducerFail => s.(producer := Poisoning(cfg.Workers()), producerFailed := true)
    case PillTimeout => s.(aborted := true)
    case WorkerFail(_) => s.(aborted := true)
  }

  /** `run` returns: every task of the group has ended and none raised. */
  predicate Returned(s: State) {
    && s.producer == Poisoning(0) && !s.producerFailed && !s.aborted
    && forall i :: 0 <= i < |s.workers| ==> s.workers[i].Exited?
  }

  /** Nothing is left to run: the pills are sent and every worker has left its loop. */
  predicate Drained(s: State) {
    s.producer == Poisoning(0) && forall i :: 0 <= i < |s.workers| ==> s.workers[i].Exited?
  }

  // ------------------------------------------------------------------ runs

  predicate IsRun(cfg: Config, s: State, run: seq<Action>)
    decreases run
  {
    run == [] || (Enabled(cfg, s, run[0]) && IsRun(cfg, Apply(cfg, s, run[0]), run[1..]))
  }

  function Final(cfg: Config, s: State, run: seq<Action>): State
    requires IsRun(cfg, s, run)
    decreases run
  {
    if run == [] then s else Final(cfg, Apply(cfg, s, run[0]), run[1..])
  }

  // ------------------------------------------------------------------ invariant

  /** The modlist cut into consecutive batches of at most `size` mods. */
  function Chunks(mods: seq<Mod>, size: nat): seq<seq<Mod>>
    requires size >= 1
  {
    if |mods| <= size then (if mods == [] then [] else [mods])
    else [mods[..size]] + Chunks(mods[size..], size)
  }

  function Batches(queue: seq<Message>): seq<seq<Mod>> {
    if queue == [] then []
    else (if queue[0].Batch? then [queue[0].mods] else []) + Batches(queue[1..])
  }

  function Pill(m: Message): nat { if m.Poison? then 1 else 0 }

  function Alive(w: Worker): nat { if w.Exited? then 0 else 1 }

  /** Mods of the batch in hand that have no outcome yet. */
  function Unsettled(w: Worker): nat {
    if w.Busy? && w.done <= |w.batch| then |w.batch| - w.done else 0
  }

  function PillsToSend(cfg: Config, s: State): nat {
    match s.producer
    case Producing => cfg.Workers()
    case Poisoning(left) => left
  }

  predicate PillsLast(queue: seq<Message>) {
    forall i, j :: 0 <= i < j < |queue| && queue[i].Poison? ==> queue[j].Poison?
  }

  predicate SomeExited(s: State) {
    exists i :: 0 <= i < |s.workers| && s.workers[i].Exited?
  }

  ghost predicate Inv(cfg: Config, modlist: seq<Mod>, s: State) {
    && |s.workers| == cfg.Workers()
    && |s.batch| <= cfg.ChunkSize()
    && (cfg.queueMaxsize > 0 ==> |s.queue| <= cfg.queueMaxsize)
    && s.taken + Batches(s.queue) + Chunks(s.batch + s.rest, cfg.ChunkSize()) == Chunks(modlist, cfg.ChunkSize())
    && PillsLast(s.queue)
    && (s.producer.Producing? ==> !SomeExited(s) && forall i :: 0 <= i < |s.queue| ==> s.queue[i].Batch?)
    && (s.producer.Poisoning? && !s.producerFailed ==> s.rest == [] && s.batch == [])
    && (s.producerFailed ==> s.producer.Poisoning?)
    && SumBy(s.workers, Alive) == SumBy(s.queue, Pill) + PillsToSend(cfg, s)
    && (SomeExited(s) ==> forall i :: 0 <= i < |s.queue| ==> s.queue[i].Poison?)
    && (forall i :: 0 <= i < |s.workers| && s.workers[i].Busy? ==> s.workers[i].done <= |s.workers[i].batch|)
    && s.processed + s.failed + s.skipped + SumBy(s.workers, Unsettled) == |Flatten(s.taken)|
  }

  lemma {:induction false} FlattenChunks(mods: seq<Mod>, size: nat)
    requires size >= 1
    ensures Flatten(Chunks(mods, size)) == mods
  {
    if |mods| > size {
      FlattenChunks(mods[size..], size);
      assert mods == mods[..size] + mods[size..];
    } else if mods != [] {
      FlattenOne(mods);
    }
  }

  lemma {:induction false} BatchesConcat(q: seq<Message>, r: seq<Message>)
    ensures Batches(q + r) == Batches(q) + Batches(r)
  {
    if q == [] {
      assert q + r == r;
    } else {
      assert (q + r)[1..] == q[1..] + r;
      BatchesConcat(q[1..], r);
    }
  }

  lemma {:induction false} NoBatches(q: seq<Message>)
    requires forall i :: 0 <= i < |q| ==> q[i].Poison?
    ensures Batches(q) == []
  {
    if q != [] {
      NoBatches(q[1..]);
    }
  }

  /** A batch that is due, or the last one, is exactly the next chunk. */
  lemma NextChunk(cfg: Config, batch: seq<Mod>, rest: seq<Mod>)
    requires 0 < |batch| <= cfg.ChunkSize()
    requires |batch| == cfg.ChunkSize() || rest == []
    ensures Chunks(batch + rest, cfg.ChunkSize()) == [batch] + Chunks(rest, cfg.ChunkSize())
  {
    if rest == [] {
      assert batch + rest == batch;
    } else {
      assert (batch + rest)[..|batch|] == batch && (batch + rest)[|batch|..] == rest;
    }
  }

  lemma InitInv(cfg: Config, modlist: seq<Mod>)
    ensures Inv(cfg, modlist, Init(cfg, modlist))
  {
    var s := Init(cfg, modlist);
    SumByAllOne(s.workers, Alive);
    SumByPositive(s.workers, Unsettled);
    assert [] + modlist == modlist;
  }

  lemma ReadKeepsInv(cfg: Config, modlist: seq<Mod>, s: State)
    requires Inv(cfg, modlist, s) && Enabled(cfg, s, ReadMod)
    ensures Inv(cfg, modlist, Apply(cfg, s, ReadMod))
  {
    var t := Apply(cfg, s, ReadMod);
    assert t.batch + t.rest == s.batch + s.rest;
    assert SomeExited(t) ==> SomeExited(s);
  }

  lemma PutBatchKeepsInv(cfg: Config, modlist: seq<Mod>, s: State)
    requires Inv(cfg, modlist, s) && Enabled(cfg, s, PutBatch)
    ensures Inv(cfg, modlist, Apply(cfg, s, PutBatch))
  {
    var t := Apply(cfg, s, PutBatch);
    BatchesConcat(s.queue, [Batch(s.batch)]);
    SumByConcat(s.queue, [Batch(s.batch)], Pill);
    NextChunk(cfg, s.batch, s.rest);
    assert t.batch + t.rest == s.rest;
    assert Batches([Batch(s.batch)]) == [s.batch];
    assert SomeExited(t) ==> SomeExited(s);
  }

  lemma PutPillKeepsInv(cfg: Config, modlist: seq<Mod>, s: State)
    requires Inv(cfg, modlist, s) && Enabled(cfg, s, PutPill)
    ensures Inv(cfg, modlist, Apply(cfg, s, PutPill))
  {
    BatchesConcat(s.queue, [Poison]);
    SumByConcat(s.queue, [Poison], Pill);
    assert SomeExited(Apply(cfg, s, PutPill)) ==> SomeExited(s);
  }

  lemma SettleKeepsInv(cfg: Config, modlist: seq<Mod>, s: State, w: nat, o: Outcome)
    requires Inv(cfg, modlist, s) && Enabled(cfg, s, Settle(w, o))
    ensures Inv(cfg, modlist, Apply(cfg, s, Settle(w, o)))
  {
    var t := Apply(cfg, s, Settle(w, o));
    SumByUpdate(s.workers, Alive, w, t.workers[w]);
    SumByUpdate(s.workers, Unsettled, w, t.workers[w]);
    assert SomeExited(t) ==> SomeExited(s);
  }

  lemma FinishKeepsInv(cfg: Config, modlist: seq<Mod>, s: State, w: nat)
    requires Inv(cfg, modlist, s) && Enabled(cfg, s, Finish(w))
    ensures Inv(cfg, modlist, Apply(cfg, s, Finish(w)))
  {
    var t := Apply(cfg, s, Finish(w));
    SumByUpdate(s.workers, Alive, w, t.workers[w]);
    SumByUpdate(s.workers, Unsettled, w, t.workers[w]);
    assert SomeExited(t) ==> SomeExited(s);
  }

  /** Handing out a batch moves it from the queue to the history. */
  lemma TakenBatch(b: seq<Mod>, taken: seq<seq<Mod>>, queue: seq<Message>)
    requires queue != [] && queue[0] == Batch(b)
    ensures taken + [b] + Batches(queue[1..]) == taken + Batches(queue)
    ensures |Flatten(taken + [b])| == |Flatten(taken)| + |b|
  {
    assert Batches(queue) == [b] + Batches(queue[1..]);
    assert |Flatten(taken + [b])| == |Flatten(taken)| + |b| by {
      FlattenConcat(taken, [b]);
      FlattenOne(b);
    }
  }

  lemma TakeBatchKeepsInv(cfg: Config, modlist: seq<Mod>, s: State, w: nat)
    requires Inv(cfg, modlist, s) && Enabled(cfg, s, Take(w)) && s.queue[0].Batch?
    ensures Inv(cfg, modlist, Apply(cfg, s, Take(w)))
  {
    var b := s.queue[0].mods;
    SumByUpdate(s.workers, Alive, w, Busy(b, 0));
    SumByUpdate(s.workers, Unsettled, w, Busy(b, 0));
    TakenBatch(b, s.taken, s.queue);
    assert SomeExited(Apply(cfg, s, Take(w))) ==> SomeExited(s);
  }

  /** A pill ends its worker; behind it there are only pills. */
  lemma TakePillKeepsInv(cfg: Config, modlist: seq<Mod>, s: State, w: nat)
    requires Inv(cfg, modlist, s) && Enabled(cfg, s, Take(w)) && s.queue[0].Poison?
    ensures Inv(cfg, modlist, Apply(cfg, s, Take(w)))
  {
    SumByUpdate(s.workers, Alive, w, Exited);
    SumByUpdate(s.workers, Unsettled, w, Exited);
    assert forall j :: 0 < j < |s.queue| ==> s.queue[j].Poison?;
    NoBatches(s.queue);
    NoBatches(s.queue[1..]);
  }

  lemma StepKeepsInv(cfg: Config, modlist: seq<Mod>, s: State, a: Action)
    requires Inv(cfg, modlist, s) && Enabled(cfg, s, a)
    ensures Inv(cfg, modlist, Apply(cfg, s, a))
  {
    match a
    case Take(w) =>
      if s.queue[0].Batch? { TakeBatchKeepsInv(cfg, modlist, s, w); } else { TakePillKeepsInv(cfg, modlist, s, w); }
    case Settle(w, o) => SettleKeepsInv(cfg, modlist, s, w, o);
    case Finish(w) => FinishKeepsInv(cfg, modlist, s, w);
    case WorkerFail(_) =>
    case PillTimeout =>
    case ReadMod => ReadKeepsInv(cfg, modlist, s);
    case PutBatch => PutBatchKeepsInv(cfg, modlist, s);
    case PutPill => PutPillKeepsInv(cfg, modlist, s);
    case StartPoison =>
    case ProducerFail =>
  }

  lemma {:induction false} RunKeepsInv(cfg: Config, modlist: seq<Mod>, s: State, run: seq<Action>)
    requires Inv(cfg, modlist, s) && IsRun(cfg, s, run)
    ensures Inv(cfg, modlist, Final(cfg, s, run))
    decreases run
  {
    if run != [] {
      StepKeepsInv(cfg, modlist, s, run[0]);
      RunKeepsInv(cfg, modlist, Apply(cfg, s, run[0]), run[1..]);
    }
  }

  // ------------------------------------------------------------------ main results

  /** All mods are accounted for, in order and once, with nothing left in the queue. */
  ghost predicate Accounted(cfg: Config, modlist: seq<Mod>, s: State) {
    && s.taken == Chunks(modlist, cfg.ChunkSize())
    && Flatten(s.taken) == modlist
    && s.queue == []
    && s.processed + s.failed + s.skipped == |modlist|
  }

  lemma ReturnedAccounts(cfg: Config, modlist: seq<Mod>, s: State)
    requires cfg.workerCount >= 1 && Inv(cfg, modlist, s) && Returned(s)
    ensures Accounted(cfg, modlist, s)
  {
    SumByPositive(s.workers, Alive);
    SumByPositive(s.workers, Unsettled);
    SumByPositive(s.queue, Pill);
    assert s.workers[0].Exited?;
    assert s.batch + s.rest == [];
    FlattenChunks(modlist, cfg.ChunkSize());
  }

  /** With at least one worker, every run that returns has accounted for the whole modlist. */
  lemma ReturnedRunsAccount(cfg: Config, modlist: seq<Mod>, run: seq<Action>)
    requires cfg.workerCount >= 1
    requires IsRun(cfg, Init(cfg, modlist), run)
    requires Returned(Final(cfg, Init(cfg, modlist), run))
    ensures Accounted(cfg, modlist, Final(cfg, Init(cfg, modlist), run))
  {
    InitInv(cfg, modlist);
    RunKeepsInv(cfg, modlist, Init(cfg, modlist), run);
    ReturnedAccounts(cfg, modlist, Final(cfg, Init(cfg, modlist), run));
  }

  /** How many lookups of the run ended with the outcome `o`. */
  function Tally(run: seq<Action>, o: Outcome): nat {
    if run == [] then 0 else (if run[0].Settle? && run[0].outcome == o then 1 else 0) + Tally(run[1..], o)
  }

  /** Each counter of the result counts exactly the lookups with its own outcome. */
  lemma {:induction false} CountersTally(cfg: Config, s: State, run: seq<Action>)
    requires IsRun(cfg, s, run)
    ensures Final(cfg, s, run).processed == s.processed + Tally(run, Processed)
    ensures Final(cfg, s, run).failed == s.failed + Tally(run, Failed)
    ensures Final(cfg, s, run).skipped == s.skipped + Tally(run, Skipped)
    decreases run
  {
    if run != [] {
      CountersTally(cfg, Apply(cfg, s, run[0]), run[1..]);
    }
  }

  /** Each action uses up some of the work that is left, failures and timeouts included. */
  function Work(cfg: Config, s: State): nat {
    (if s.aborted then 0 else 1)
    + (match s.producer
       case Producing => 7 * |s.rest| + 6 * |s.batch| + 2 * cfg.Workers() + 1
       case Poisoning(left) => 2 * left)
    + SumBy(s.queue, QueuedWork) + SumBy(s.workers, WorkerWork)
  }

  function QueuedWork(m: Message): nat {
    match m
    case Poison => 1
    case Batch(b) => 2 + |b|
  }

  function WorkerWork(w: Worker): nat {
    if w.Busy? then 1 + Unsettled(w) else 0
  }

  lemma PutUsesWork(cfg: Config, s: State, a: Action)
    requires Enabled(cfg, s, a) && (a.PutBatch? || a.PutPill?)
    ensures Work(cfg, Apply(cfg, s, a)) < Work(cfg, s)
  {
    var m := if a.PutPill? then Poison else Batch(s.batch);
    SumByConcat(s.queue, [m], QueuedWork);
    assert SumBy([m], QueuedWork) == QueuedWork(m) + SumBy([], QueuedWork);
  }

  lemma WorkerUsesWork(cfg: Config, s: State, a: Action, w: Worker)
    requires Enabled(cfg, s, a) && (a.Take? || a.Settle? || a.Finish?)
    requires w == Apply(cfg, s, a).workers[a.worker]
    ensures Work(cfg, Apply(cfg, s, a)) < Work(cfg, s)
  {
    var t := Apply(cfg, s, a);
    assert t.workers == s.workers[a.worker := w];
    SumByUpdate(s.workers, WorkerWork, a.worker, w);
    if a.Take? {
      assert SumBy(s.queue, QueuedWork) == QueuedWork(s.queue[0]) + SumBy(s.queue[1..], QueuedWork);
    } else {
      assert t.queue == s.queue;
    }
  }

  lemma StepUsesWork(cfg: Config, s: State, a: Action)
    requires Enabled(cfg, s, a)
    ensures Work(cfg, Apply(cfg, s, a)) < Work(cfg, s)
  {
    if a.PutBatch? || a.PutPill? {
      PutUsesWork(cfg, s, a);
    } else if a.Take? || a.Settle? || a.Finish? {
      WorkerUsesWork(cfg, s, a, Apply(cfg, s, a).workers[a.worker]);
    }
  }

  /** No run is longer than the work at its start. */
  lemma {:induction false} RunsAreBounded(cfg: Config, s: State, run: seq<Action>)
    requires IsRun(cfg, s, run)
    ensures |run| + Work(cfg, Final(cfg, s, run)) <= Work(cfg, s)
    decreases run
  {
    if run != [] {
      StepUsesWork(cfg, s, run[0]);
      RunsAreBounded(cfg, Apply(cfg, s, run[0]), run[1..]);
    }
  }

  /** Some ordinary action is possible until everything has drained: no deadlock. */
  lemma NotStuck(cfg: Config, modlist: seq<Mod>, s: State) returns (a: Action)
    requires cfg.workerCount >= 1
    requires Inv(cfg, modlist, s) && !s.aborted && !Drained(s)
    ensures Ordinary(a) && Enabled(cfg, s, a)
  {
    if w :| 0 <= w < |s.workers| && s.workers[w].Busy? {
      a := if s.workers[w].done < |s.workers[w].batch| then Settle(w, Skipped) else Finish(w);
    } else if w :| 0 <= w < |s.workers| && s.workers[w].Idle? && s.queue != [] {
      a := Take(w);
    } else if s.producer.Producing? {
      assert s.workers[0].Idle?;
      a := if s.rest != [] && !BatchDue(cfg, s) then ReadMod else if s.batch != [] then PutBatch else StartPoison;
    } else {
      SumByPositive(s.workers, Alive);
      a := PutPill;
    }
  }

  // ------------------------------------------------------------------ no workers

  /** Without workers the producer alone can finish, as long as its batches fit the queue. */
  lemma {:induction false} ProducerAlone(cfg: Config, modlist: seq<Mod>, s: State) returns (run: seq<Action>)
    requires cfg.Workers() == 0 && Inv(cfg, modlist, s)
    requires s.producer.Producing? && !s.aborted
    requires cfg.queueMaxsize > 0 ==> |s.queue| + |Chunks(s.batch + s.rest, cfg.ChunkSize())| <= cfg.queueMaxsize
    ensures IsRun(cfg, s, run) && Returned(Final(cfg, s, run))
    ensures var t := Final(cfg, s, run);
            t.processed == s.processed && t.failed == s.failed && t.skipped == s.skipped
    decreases Work(cfg, s)
  {
    if s.rest == [] && s.batch == [] {
      run := [StartPoison];
      assert Final(cfg, s, run) == Final(cfg, Apply(cfg, s, StartPoison), []);
    } else {
      var a := if s.rest != [] && !BatchDue(cfg, s) then ReadMod else PutBatch;
      if a.PutBatch? {
        NextChunk(cfg, s.batch, s.rest);
      }
      assert Enabled(cfg, s, a);
      var t := Apply(cfg, s, a);
      assert t.batch + t.rest == if a.ReadMod? then s.batch + s.rest else s.rest;
      StepKeepsInv(cfg, modlist, s, a);
      StepUsesWork(cfg, s, a);
      var tail := ProducerAlone(cfg, modlist, t);
      run := [a] + tail;
      assert run[1..] == tail;
    }
  }

  lemma {:induction false} BatchesShorter(q: seq<Message>)
    ensures |Batches(q)| <= |q|
  {
    if q != [] {
      BatchesShorter(q[1..]);
    }
  }

  lemma {:induction false} NothingTakenWithoutWorkers(cfg: Config, s: State, run: seq<Action>)
    requires |s.workers| == 0 && s.taken == [] && IsRun(cfg, s, run)
    ensures Final(cfg, s, run).taken == []
    decreases run
  {
    if run != [] {
      NothingTakenWithoutWorkers(cfg, Apply(cfg, s, run[0]), run[1..]);
    }
  }

  ghost predicate EveryReturnAccounts(cfg: Config, modlist: seq<Mod>) {
    forall run: seq<Action> ::
      IsRun(cfg, Init(cfg, modlist), run) && Returned(Final(cfg, Init(cfg, modlist), run))
      ==> Accounted(cfg, modlist, Final(cfg, Init(cfg, modlist), run))
  }

  /**
   The configuration does not bound `worker_count` from below.  The result can be trusted
   exactly when there is a worker, or nothing to do, or too many batches for the queue (the
   run then ends with a timeout instead of a result).
   */
  lemma WhenReturnedRunsAccount(cfg: Config, modlist: seq<Mod>)
    ensures EveryReturnAccounts(cfg, modlist) <==>
            cfg.workerCount >= 1 || modlist == []
            || (cfg.queueMaxsize > 0 && |Chunks(modlist, cfg.ChunkSize())| > cfg.queueMaxsize)
  {
    var s := Init(cfg, modlist);
    InitInv(cfg, modlist);
    assert [] + modlist == modlist;
    if cfg.workerCount < 1 && modlist != []
       && (cfg.queueMaxsize > 0 ==> |Chunks(modlist, cfg.ChunkSize())| <= cfg.queueMaxsize) {
      var run := ProducerAlone(cfg, modlist, s);
      assert !Accounted(cfg, modlist, Final(cfg, s, run));
    } else {
      forall run: seq<Action> | IsRun(cfg, s, run) && Returned(Final(cfg, s, run))
        ensures Accounted(cfg, modlist, Final(cfg, s, run))
      {
        if cfg.workerCount >= 1 {
          ReturnedRunsAccount(cfg, modlist, run);
        } else {
          NoWorkersReturned(cfg, modlist, run);
        }
      }
    }
  }

  lemma NoWorkersReturned(cfg: Config, modlist: seq<Mod>, run: seq<Action>)
    requires cfg.workerCount < 1
    requires modlist == [] || (cfg.queueMaxsize > 0 && |Chunks(modlist, cfg.ChunkSize())| > cfg.queueMaxsize)
    requires IsRun(cfg, Init(cfg, modlist), run)
    requires Returned(Final(cfg, Init(cfg, modlist), run))
    ensures Accounted(cfg, modlist, Final(cfg, Init(cfg, modlist), run))
  {
    var s := Final(cfg, Init(cfg, modlist), run);
    InitInv(cfg, modlist);
    RunKeepsInv(cfg, modlist, Init(cfg, modlist), run);
    NothingTakenWithoutWorkers(cfg, Init(cfg, modlist), run);
    BatchesShorter(s.queue);
    SumByPositive(s.queue, Pill);
    assert s.batch + s.rest == [];
  }
}
