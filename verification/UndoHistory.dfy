/**
 Undo is a stack: over whole histories of file operations, the journal and the snapshot store
 behave like a stack of file systems.
 */
module UndoHistory {
  import opened Wrappers
  import opened Snapshots
  import opened Journal
  import opened Rollback

  // ------------------------------------------------------------------ the stack that is meant

  datatype Call = Perform(op: Operation) | UndoLast

  /** The files, and what they were before each operation that can still be undone. */
  datatype UndoStack = UndoStack(files: Files, past: seq<Files>)

  function Intended(u: UndoStack, c: Call): UndoStack {
    match c
    case Perform(op) => if op.ending.Returns? then UndoStack(op.after, u.past + [u.files]) else u
    case UndoLast => if u.past == [] then u else UndoStack(u.past[|u.past| - 1], u.past[..|u.past| - 1])
  }

  function IntendedAll(u: UndoStack, calls: seq<Call>): UndoStack {
    if calls == [] then u else Intended(IntendedAll(u, calls[..|calls| - 1]), calls[|calls| - 1])
  }

  // ------------------------------------------------------------------ what the code does

  /** A call of the code; the answer of the journal is any that its query allows. */
  ghost predicate Step(hash: Bytes -> int, agent: string, w: World, c: Call, w': World) {
    match c
    case Perform(op) =>
      if op.ending.Raises? then
        exists answer :: IsAnswer(Performed(hash, w, op).journal.entries, op.agent, answer)
                         && w' == Execute(hash, w, op, answer)
      else w' == Execute(hash, w, op, None)
    case UndoLast =>
      exists answer :: IsAnswer(w.journal.entries, agent, answer) && w' == Undo(hash, w, answer).1
  }

  /** The snapshots that undoing operations of the agent needs. */
  ghost predicate KeepsSnapshots(w: World, agent: string, removed: set<Path>) {
    forall i :: 0 <= i < |w.journal.entries| && Undoable(w.journal.entries, agent, i)
                && w.journal.entries[i].snapshotPath.Some?
                ==> w.journal.entries[i].snapshotPath.value !in removed
  }

  /**
   The operations that undo is for: an existing target, the only file that changes; no file with
   the name of its temporary backup; a later timestamp and a fresh snapshot name; no snapshot
   that is still needed is removed; and no change if it is cancelled.
   */
  ghost predicate Clean(w: World, agent: string, op: Operation) {
    && op.agent == agent
    && op.target in w.files && OnlyChanges(w.files, op.after, op.target)
    && (op.ending.Cancelled? ==> op.after == w.files)
    && (op.target in op.after ==> BackupOf(op.target) !in w.files)
    && op.name !in w.store
    && (forall i :: 0 <= i < |w.journal.entries| ==> w.journal.entries[i].at < op.now)
    && op.name !in op.evicted && op.name !in op.pruned
    && KeepsSnapshots(w, agent, op.evicted + op.pruned)
  }

  // ------------------------------------------------------------------ refinement

  /** Undoing entry `i` takes `after` back to `before`. */
  ghost predicate Layer(hash: Bytes -> int, store: Store, entries: seq<Entry>, i: nat, before: Files, after: Files) {
    && i < |entries|
    && var e := entries[i];
       && e.snapshotPath.Some?
       && Restorable(hash, store, e.snapshotPath.value, true)
       && e.target in before && store[e.snapshotPath.value].bytes == before[e.target]
       && OnlyChanges(before, after, e.target)
       && (e.target in after ==> BackupOf(e.target) !in before)
  }

  ghost predicate Layers(hash: Bytes -> int, store: Store, entries: seq<Entry>, live: seq<nat>, past: seq<Files>,
                         files: Files) {
    |live| == |past| &&
    if live == [] then true
    else
      var n := |live| - 1;
      Layer(hash, store, entries, live[n], past[n], files)
            && Layers(hash, store, entries, live[..n], past[..n], past[n])
  }

  ghost predicate Represents(hash: Bytes -> int, agent: string, w: World, live: seq<nat>, u: UndoStack) {
    && w.files == u.files
    && Layers(hash, w.store, w.journal.entries, live, u.past, w.files)
    && Lists(w.journal.entries, agent, live)
  }

  /** `live` are the undoable rows of the agent, in an order that the timestamps agree with. */
  ghost predicate Lists(entries: seq<Entry>, agent: string, live: seq<nat>) {
    && (forall k, m :: 0 <= k < m < |live| ==> live[k] < live[m])
    && (forall k :: 0 <= k < |live| ==> Undoable(entries, agent, live[k]))
    && (forall i: nat :: Undoable(entries, agent, i) ==> i in live)
    && (forall i, k :: 0 <= i < k < |entries| ==> entries[i].at < entries[k].at)
  }

  /** Layers only depend on their own entries and snapshots. */
  lemma {:induction false} LayersFrame(hash: Bytes -> int, s: Store, s': Store, es: seq<Entry>, es': seq<Entry>,
                                       live: seq<nat>, past: seq<Files>, files: Files)
    requires Layers(hash, s, es, live, past, files)
    requires forall k :: 0 <= k < |live| ==> live[k] < |es| && SameEntry(s, s', es[live[k]], es', live[k])
    ensures Layers(hash, s', es', live, past, files)
    decreases |live|
  {
    if live != [] {
      var n := |live| - 1;
      LayersFrame(hash, s, s', es, es', live[..n], past[..n], past[n]);
    }
  }

  /** The entry keeps its target and its snapshot. */
  ghost predicate SameEntry(s: Store, s': Store, e: Entry, es': seq<Entry>, i: nat) {
    && i < |es'| && es'[i].target == e.target && es'[i].snapshotPath == e.snapshotPath
    && (e.snapshotPath.Some? && e.snapshotPath.value in s ==>
          e.snapshotPath.value in s' && s'[e.snapshotPath.value] == s[e.snapshotPath.value])
  }

  /** The entries of the layers have their snapshots in the store. */
  lemma {:induction false} LayersStored(hash: Bytes -> int, s: Store, es: seq<Entry>, live: seq<nat>,
                                        past: seq<Files>, files: Files)
    requires Layers(hash, s, es, live, past, files)
    ensures forall k :: 0 <= k < |live| ==>
              live[k] < |es| && es[live[k]].snapshotPath.Some? && es[live[k]].snapshotPath.value in s
    decreases |live|
  {
    if live != [] {
      var n := |live| - 1;
      LayersStored(hash, s, es, live[..n], past[..n], past[n]);
      assert forall k :: 0 <= k < n ==> live[..n][k] == live[k];
    }
  }

  /** The journal is forced to answer with the top of the stack. */
  lemma AnswerIsTop(hash: Bytes -> int, agent: string, w: World, live: seq<nat>, u: UndoStack, answer: Option<nat>)
    requires Represents(hash, agent, w, live, u)
    requires IsAnswer(w.journal.entries, agent, answer)
    ensures answer == if live == [] then None else Some(live[|live| - 1])
  {
    if live != [] && answer.Some? {
      var k :| 0 <= k < |live| && live[k] == answer.value;
    }
  }

  lemma ListsPop(es: seq<Entry>, agent: string, live: seq<nat>)
    requires Lists(es, agent, live) && live != []
    ensures var top := live[|live| - 1];
            Lists(es[top := es[top].(status := RolledBack)], agent, live[..|live| - 1])
  {
    var n := |live| - 1;
    var es' := es[live[n] := es[live[n]].(status := RolledBack)];
    forall i: nat | Undoable(es', agent, i) ensures i in live[..n] {
      assert Undoable(es, agent, i);
      var k :| 0 <= k < |live| && live[k] == i;
      assert live[..n][k] == i;
    }
  }

  lemma TimesPush(es: seq<Entry>, e: Entry)
    requires forall i, k :: 0 <= i < k < |es| ==> es[i].at < es[k].at
    requires forall i :: 0 <= i < |es| ==> es[i].at < e.at
    ensures forall i, k :: 0 <= i < k < |es + [e]| ==> (es + [e])[i].at < (es + [e])[k].at
  {
  }

  /** The rows that count are those of before, and the new one if it counts. */
  lemma UndoablePush(es: seq<Entry>, agent: string, e: Entry, i: nat)
    ensures Undoable(es + [e], agent, i) <==>
            Undoable(es, agent, i) || (i == |es| && Undoable([e], agent, 0))
  {
  }

  /** A new row with a later timestamp, undoable or not. */
  lemma ListsPush(es: seq<Entry>, agent: string, live: seq<nat>, e: Entry)
    requires Lists(es, agent, live) && forall i :: 0 <= i < |es| ==> es[i].at < e.at
    ensures Lists(es + [e], agent, if Undoable([e], agent, 0) then live + [|es|] else live)
  {
    var es' := es + [e];
    var live' := if Undoable([e], agent, 0) then live + [|es|] else live;
    TimesPush(es, e);
    forall k | 0 <= k < |live'| ensures Undoable(es', agent, live'[k]) {
      UndoablePush(es, agent, e, live'[k]);
    }
    forall i: nat | Undoable(es', agent, i) ensures i in live' {
      UndoablePush(es, agent, e, i);
    }
  }

  lemma UndoPops(hash: Bytes -> int, agent: string, w: World, live: seq<nat>, u: UndoStack)
    requires Represents(hash, agent, w, live, u) && live != []
    ensures var n := |live| - 1;
            var (r, w') := Undo(hash, w, Some(live[n]));
            r.Ok? && Represents(hash, agent, w', live[..n], Intended(u, UndoLast))
  {
    var n := |live| - 1;
    var top := live[n];
    var w' := Undo(hash, w, Some(top)).1;
    RestoreUndoes(u.past[n], w.files, w.journal.entries[top].target);
    assert w'.files == u.past[n];
    ListsPop(w.journal.entries, agent, live);
    LayersFrame(hash, w.store, w'.store, w.journal.entries, w'.journal.entries, live[..n], u.past[..n], u.past[n]);
  }

  /** Logging a new operation leaves the layers below it alone. */
  lemma PerformFrame(hash: Bytes -> int, agent: string, w: World, live: seq<nat>, u: UndoStack, op: Operation, p: World)
    requires Represents(hash, agent, w, live, u) && Clean(w, agent, op)
    requires p == Performed(hash, w, op)
    ensures Layers(hash, p.store, p.journal.entries, live, u.past, w.files)
    ensures Layer(hash, p.store, p.journal.entries, |w.journal.entries|, w.files, op.after)
  {
    LayersStored(hash, w.store, w.journal.entries, live, u.past, w.files);
    LayersFrame(hash, w.store, p.store, w.journal.entries, p.journal.entries, live, u.past, w.files);
  }

  /** The row that the operation leaves, before anything is undone. */
  function Row(w: World, op: Operation): Entry
    requires op.target in w.files
  {
    Entry(|w.journal.transactions|, op.now, op.agent, op.kind, op.target, Some(op.name),
          match op.ending case Returns => Completed case Raises => OperationFailed case Cancelled => Started)
  }

  lemma PerformedEntries(hash: Bytes -> int, w: World, op: Operation)
    requires op.target in w.files
    ensures Performed(hash, w, op).journal.entries == w.journal.entries + [Row(w, op)]
    ensures Performed(hash, w, op).files == op.after
  {
  }

  /** Whatever the operation does to its target becomes the new top of the stack. */
  lemma PerformPushes(hash: Bytes -> int, agent: string, w: World, live: seq<nat>, u: UndoStack, op: Operation,
                      p: World)
    requires Represents(hash, agent, w, live, u) && Clean(w, agent, op) && p == Performed(hash, w, op)
    requires !op.ending.Cancelled?
    ensures Represents(hash, agent, p, live + [|w.journal.entries|], UndoStack(op.after, u.past + [u.files]))
  {
    PerformFrame(hash, agent, w, live, u, op, p);
    PerformedEntries(hash, w, op);
    ListsPush(w.journal.entries, agent, live, Row(w, op));
    PushLayer(hash, p.store, p.journal.entries, live, |w.journal.entries|, u.past, w.files, op.after);
  }

  lemma PushLayer(hash: Bytes -> int, store: Store, es: seq<Entry>, live: seq<nat>, i: nat,
                  past: seq<Files>, before: Files, after: Files)
    requires Layers(hash, store, es, live, past, before) && Layer(hash, store, es, i, before, after)
    ensures Layers(hash, store, es, live + [i], past + [before], after)
  {
    assert (live + [i])[..|live|] == live && (past + [before])[..|live|] == past;
  }

  /** Removing snapshots that no undoable operation needs changes nothing. */
  lemma PruneKeeps(hash: Bytes -> int, agent: string, w: World, live: seq<nat>, u: UndoStack, pruned: set<Path>)
    requires Represents(hash, agent, w, live, u) && KeepsSnapshots(w, agent, pruned)
    ensures Represents(hash, agent, w.(store := w.store - pruned), live, u)
  {
    LayersFrame(hash, w.store, w.store - pruned, w.journal.entries, w.journal.entries, live, u.past, w.files);
  }

  /** The pruning at the end removes none of the snapshots still needed, nor the new one. */
  lemma PruningIsHarmless(w: World, agent: string, op: Operation, p: World, e: Entry)
    requires Clean(w, agent, op)
    requires p.journal.entries == w.journal.entries + [e]
    requires Undoable([e], agent, 0) ==> e.snapshotPath == Some(op.name)
    ensures KeepsSnapshots(p, agent, op.pruned)
  {
    forall i | 0 <= i < |p.journal.entries| && Undoable(p.journal.entries, agent, i)
          && p.journal.entries[i].snapshotPath.Some?
      ensures p.journal.entries[i].snapshotPath.value !in op.pruned
    {
      if i < |w.journal.entries| {
        assert Undoable(w.journal.entries, agent, i);
      }
    }
  }

  /** The pruning at the end of a call leaves the stack alone. */
  lemma PruneAfter(hash: Bytes -> int, agent: string, w: World, op: Operation, p: World, e: Entry,
                   live: seq<nat>, u: UndoStack)
    requires Clean(w, agent, op) && Represents(hash, agent, p, live, u)
    requires p.journal.entries == w.journal.entries + [e]
    requires Undoable([e], agent, 0) ==> e.snapshotPath == Some(op.name)
    ensures Represents(hash, agent, p.(store := p.store - op.pruned), live, u)
  {
    PruningIsHarmless(w, agent, op, p, e);
    PruneKeeps(hash, agent, p, live, u, op.pruned);
  }

  lemma ExecuteReturned(hash: Bytes -> int, w: World, op: Operation, p: World)
    requires !op.ending.Raises? && p == Performed(hash, w, op)
    ensures Execute(hash, w, op, None) == p.(store := p.store - op.pruned)
  {
  }

  /** A successful operation pushes the files it started from. */
  lemma SuccessPushes(hash: Bytes -> int, agent: string, w: World, live: seq<nat>, u: UndoStack, op: Operation)
    requires Represents(hash, agent, w, live, u) && Clean(w, agent, op) && op.ending.Returns?
    ensures Represents(hash, agent, Execute(hash, w, op, None), live + [|w.journal.entries|], Intended(u, Perform(op)))
  {
    var p := Performed(hash, w, op);
    assert Represents(hash, agent, p, live + [|w.journal.entries|], Intended(u, Perform(op))) by {
      PerformPushes(hash, agent, w, live, u, op, p);
    }
    assert p.journal.entries == w.journal.entries + [Row(w, op)] by {
      PerformedEntries(hash, w, op);
    }
    ExecuteReturned(hash, w, op, p);
    PruneAfter(hash, agent, w, op, p, Row(w, op), live + [|w.journal.entries|], Intended(u, Perform(op)));
  }

  /** Undoing right after a push takes back what was pushed. */
  lemma PopPushed(hash: Bytes -> int, agent: string, p: World, live: seq<nat>, id: nat, u: UndoStack,
                  answer: Option<nat>)
    requires Represents(hash, agent, p, live + [id], UndoStack(p.files, u.past + [u.files]))
    requires IsAnswer(p.journal.entries, agent, answer)
    ensures answer == Some(id)
    ensures Undo(hash, p, answer).0.Ok? && Represents(hash, agent, Undo(hash, p, answer).1, live, u)
  {
    var pushed := UndoStack(p.files, u.past + [u.files]);
    AnswerIsTop(hash, agent, p, live + [id], pushed, answer);
    UndoPops(hash, agent, p, live + [id], pushed);
    assert (live + [id])[..|live|] == live && (u.past + [u.files])[..|u.past|] == u.past;
  }

  /** A failing operation is undone at once: the files are as before and nothing is pushed. */
  lemma FailureRestores(hash: Bytes -> int, agent: string, w: World, live: seq<nat>, u: UndoStack,
                        op: Operation, answer: Option<nat>)
    requires Represents(hash, agent, w, live, u) && Clean(w, agent, op) && op.ending.Raises?
    requires IsAnswer(Performed(hash, w, op).journal.entries, agent, answer)
    ensures Represents(hash, agent, Execute(hash, w, op, answer), live, u)
  {
    var id := |w.journal.entries|;
    var p := Performed(hash, w, op);
    PerformPushes(hash, agent, w, live, u, op, p);
    PerformedEntries(hash, w, op);
    PopPushed(hash, agent, p, live, id, u, answer);
    var undone := Undo(hash, p, answer).1;
    UndoneEntries(hash, p, id, w.journal.entries, Row(w, op));
    PruneAfter(hash, agent, w, op, undone, Row(w, op).(status := RolledBack), live, u);
  }

  /** A cancelled operation leaves a row that is never undone, and what it did to the files. */
  lemma CancellationIsNotUndone(hash: Bytes -> int, w: World, op: Operation, answer: Option<nat>)
    requires op.ending.Cancelled? && op.target in w.files
    requires IsAnswer(Execute(hash, w, op, None).journal.entries, op.agent, answer)
    ensures Execute(hash, w, op, None).files == op.after
    ensures answer != Some(|w.journal.entries|) && IsAnswer(w.journal.entries, op.agent, answer)
  {
    var es := w.journal.entries;
    PerformedEntries(hash, w, op);
    assert !Undoable([Row(w, op)], op.agent, 0);
    forall i: nat ensures Undoable(es + [Row(w, op)], op.agent, i) <==> Undoable(es, op.agent, i) {
      UndoablePush(es, op.agent, Row(w, op), i);
    }
    if answer.Some? {
      assert Undoable(es, op.agent, answer.value);
      forall k | 0 <= k < |es| && Undoable(es, op.agent, k) ensures es[k].at <= es[answer.value].at {
        assert Undoable(es + [Row(w, op)], op.agent, k);
        assert (es + [Row(w, op)])[k] == es[k];
      }
    }
  }

  /** A cancellation before any change is harmless; the row it leaves does not count. */
  lemma CancelledKeeps(hash: Bytes -> int, agent: string, w: World, live: seq<nat>, u: UndoStack, op: Operation)
    requires Represents(hash, agent, w, live, u) && Clean(w, agent, op) && op.ending.Cancelled?
    ensures Represents(hash, agent, Execute(hash, w, op, None), live, u)
  {
    var p := Performed(hash, w, op);
    PerformFrame(hash, agent, w, live, u, op, p);
    PerformedEntries(hash, w, op);
    ListsPush(w.journal.entries, agent, live, Row(w, op));
    PruneAfter(hash, agent, w, op, p, Row(w, op), live, u);
  }

  lemma UndoneEntries(hash: Bytes -> int, p: World, id: nat, es: seq<Entry>, e: Entry)
    requires p.journal.entries == es + [e] && id == |es|
    requires Undo(hash, p, Some(id)).0.Ok?
    ensures Undo(hash, p, Some(id)).1.journal.entries == es + [e.(status := RolledBack)]
  {
    assert (es + [e])[id := e.(status := RolledBack)] == es + [e.(status := RolledBack)];
  }

  // ------------------------------------------------------------------ main results

  /** A history: the worlds before, between and after the calls. */
  ghost predicate IsHistory(hash: Bytes -> int, agent: string, ws: seq<World>, calls: seq<Call>) {
    && |ws| == |calls| + 1
    && (forall i :: 0 <= i < |calls| ==> Step(hash, agent, ws[i], calls[i], ws[i + 1]))
    && (forall i :: 0 <= i < |calls| && calls[i].Perform? ==> Clean(ws[i], agent, calls[i].op))
  }

  /** The agent has nothing to undo, and the journal is in time order. */
  ghost predicate Fresh(w: World, agent: string) {
    Lists(w.journal.entries, agent, [])
  }

  lemma StepRefines(hash: Bytes -> int, agent: string, w: World, live: seq<nat>, u: UndoStack, c: Call, w': World)
    returns (live': seq<nat>)
    requires Represents(hash, agent, w, live, u) && Step(hash, agent, w, c, w')
    requires c.Perform? ==> Clean(w, agent, c.op)
    ensures Represents(hash, agent, w', live', Intended(u, c))
  {
    match c
    case Perform(op) =>
      match op.ending {
        case Returns =>
          SuccessPushes(hash, agent, w, live, u, op);
          live' := live + [|w.journal.entries|];
        case Raises =>
          var answer :| IsAnswer(Performed(hash, w, op).journal.entries, op.agent, answer)
                        && w' == Execute(hash, w, op, answer);
          FailureRestores(hash, agent, w, live, u, op, answer);
          live' := live;
        case Cancelled =>
          CancelledKeeps(hash, agent, w, live, u, op);
          live' := live;
      }
    case UndoLast =>
      var answer :| IsAnswer(w.journal.entries, agent, answer) && w' == Undo(hash, w, answer).1;
      AnswerIsTop(hash, agent, w, live, u, answer);
      if live == [] {
        live' := live;
      } else {
        UndoPops(hash, agent, w, live, u);
        live' := live[..|live| - 1];
      }
  }

  lemma HistoryPrefix(hash: Bytes -> int, agent: string, ws: seq<World>, calls: seq<Call>, n: nat)
    requires IsHistory(hash, agent, ws, calls) && n <= |calls|
    ensures IsHistory(hash, agent, ws[..n + 1], calls[..n])
  {
    forall i | 0 <= i < n
      ensures Step(hash, agent, ws[..n + 1][i], calls[..n][i], ws[..n + 1][i + 1])
      ensures calls[..n][i].Perform? ==> Clean(ws[..n + 1][i], agent, calls[..n][i].op)
    {
      assert Step(hash, agent, ws[i], calls[i], ws[i + 1]);
    }
  }

  lemma {:induction false} HistoryRefines(hash: Bytes -> int, agent: string, ws: seq<World>, calls: seq<Call>)
    returns (live: seq<nat>)
    requires IsHistory(hash, agent, ws, calls) && Fresh(ws[0], agent)
    ensures Represents(hash, agent, ws[|calls|], live, IntendedAll(UndoStack(ws[0].files, []), calls))
    decreases |calls|
  {
    if calls == [] {
      live := [];
    } else {
      var n := |calls| - 1;
      HistoryPrefix(hash, agent, ws, calls, n);
      assert Step(hash, agent, ws[n], calls[n], ws[n + 1]);
      var before := HistoryRefines(hash, agent, ws[..n + 1], calls[..n]);
      live := StepRefines(hash, agent, ws[n], before, IntendedAll(UndoStack(ws[0].files, []), calls[..n]), calls[n],
                          ws[n + 1]);
    }
  }

  /** The undo log refines the stack: after any history the files are what the stack says. */
  lemma {:induction false} UndoLogIsStack(hash: Bytes -> int, agent: string, ws: seq<World>, calls: seq<Call>)
    requires IsHistory(hash, agent, ws, calls) && Fresh(ws[0], agent)
    ensures ws[|calls|].files == IntendedAll(UndoStack(ws[0].files, []), calls).files
  {
    var live := HistoryRefines(hash, agent, ws, calls);
  }

  function Undos(k: nat): (r: seq<Call>)
    ensures |r| == k
  {
    seq(k, _ => UndoLast)
  }

  lemma IntendedLast(u: UndoStack, calls: seq<Call>, c: Call)
    ensures IntendedAll(u, calls + [c]) == Intended(IntendedAll(u, calls), c)
  {
    assert (calls + [c])[..|calls|] == calls;
  }

  /** What is left on the stack after `k` undos. */
  function Unwound(u: UndoStack, k: nat): UndoStack
    requires k <= |u.past|
  {
    UndoStack(if k == 0 then u.files else u.past[|u.past| - k], u.past[..|u.past| - k])
  }

  lemma UnwoundStep(u: UndoStack, k: nat)
    requires 0 < k <= |u.past|
    ensures Unwound(u, k) == Intended(Unwound(u, k - 1), UndoLast)
  {
    assert u.past[..|u.past| - k + 1][..|u.past| - k] == u.past[..|u.past| - k];
  }

  lemma {:induction false} IntendedUndos(u: UndoStack, calls: seq<Call>, k: nat)
    requires k <= |IntendedAll(u, calls).past|
    ensures IntendedAll(u, calls + Undos(k)) == Unwound(IntendedAll(u, calls), k)
  {
    var end := IntendedAll(u, calls);
    if k == 0 {
      assert calls + Undos(0) == calls;
      assert end.past[..|end.past|] == end.past;
    } else {
      IntendedUndos(u, calls, k - 1);
      IntendedLast(u, calls + Undos(k - 1), UndoLast);
      UnwoundStep(end, k);
      assert calls + Undos(k) == calls + Undos(k - 1) + [UndoLast];
    }
  }

  lemma UndoneFiles(u: UndoStack, calls: seq<Call>, k: nat, all: seq<Call>)
    requires 0 < k <= |IntendedAll(u, calls).past| && all == calls + Undos(k)
    ensures IntendedAll(u, all).files == IntendedAll(u, calls).past[|IntendedAll(u, calls).past| - k]
  {
    IntendedUndos(u, calls, k);
  }

  /** `k` undos take the files back to what they were before the last `k` operations not undone yet. */
  lemma UndosRestore(hash: Bytes -> int, agent: string, ws: seq<World>, calls: seq<Call>, k: nat)
    requires IsHistory(hash, agent, ws, calls + Undos(k)) && Fresh(ws[0], agent)
    requires 0 < k <= |IntendedAll(UndoStack(ws[0].files, []), calls).past|
    ensures var past := IntendedAll(UndoStack(ws[0].files, []), calls).past;
            ws[|calls| + k].files == past[|past| - k]
  {
    var all := calls + Undos(k);
    UndoneFiles(UndoStack(ws[0].files, []), calls, k, all);
    UndoLogIsStack(hash, agent, ws, all);
  }

  // ------------------------------------------------------------------ what else a call leaves

  /**
   Only an operation that returns closes its transaction; a failed or cancelled one leaves it
   pending, and it stays the current one.  Transactions of earlier calls are not touched.
   */
  lemma WhenTransactionCloses(hash: Bytes -> int, w: World, op: Operation, answer: Option<nat>)
    requires answer.Some? ==> answer.value <= |w.journal.entries|
    ensures var j, n := Execute(hash, w, op, answer).journal, |w.journal.transactions|;
            && j.transactions == w.journal.transactions + [if op.ending.Returns? then Committed else Pending]
            && j.current == if op.ending.Returns? then None else Some(n)
  {
    var n := |w.journal.transactions|;
    assert (w.journal.transactions + [Pending])[n := Committed] == w.journal.transactions + [Committed];
  }

  /** The row of the call says what was done to what, under which transaction, and how it ended. */
  lemma RowTells(hash: Bytes -> int, w: World, op: Operation)
    ensures var p := Performed(hash, w, op).journal.entries; var n := |w.journal.entries|;
            && |p| == n + 1 && p[..n] == w.journal.entries
            && p[n].transaction == |w.journal.transactions| && p[n].at == op.now && p[n].agent == op.agent
            && p[n].kind == op.kind && p[n].target == op.target
            && p[n].snapshotPath == (if op.target in w.files then Some(op.name) else None)
            && (p[n].status == Completed <==> op.ending == Returns)
            && (p[n].status == OperationFailed <==> op.ending == Raises)
            && (p[n].status == Started <==> op.ending == Cancelled)
  {
  }

  /** An undo leaves the rows of other agents alone, and rows that are undone already or never ended. */
  lemma UndoTouchesOwn(hash: Bytes -> int, w: World, agent: string, answer: Option<nat>, k: nat)
    requires IsAnswer(w.journal.entries, agent, answer) && k < |w.journal.entries|
    requires w.journal.entries[k].agent != agent
             || w.journal.entries[k].status !in {Completed, OperationFailed}
    ensures var (r, t) := Undo(hash, w, answer);
            k < |t.journal.entries| && t.journal.entries[k] == w.journal.entries[k]
  {
  }

  /** The store after an operation: the new snapshot if the target existed, less what retention and pruning took. */
  lemma StoreAfter(hash: Bytes -> int, w: World, op: Operation, answer: Option<nat>, p: Path)
    requires answer.Some? ==> answer.value <= |w.journal.entries|
    ensures var store := Execute(hash, w, op, answer).store; var taken := op.target in w.files;
            && (p in store <==>
                  p !in op.pruned && (taken ==> p !in op.evicted) && (p in w.store || (taken && p == op.name)))
            && (p in store && p in w.store && !(taken && p == op.name) ==> store[p] == w.store[p])
            && (p in store && taken && p == op.name ==>
                  store[p] == Snapshot(w.files[op.target], Some(hash(w.files[op.target]))))
  {
  }

  /** What an undo reports, and what it does to the row. */
  lemma UndoReports(hash: Bytes -> int, w: World, answer: Option<nat>)
    requires answer.Some? ==> answer.value < |w.journal.entries|
    ensures var (r, t) := Undo(hash, w, answer);
            match answer
            case None => r == Err(NothingToUndo) && t == w
            case Some(i) =>
              var e := w.journal.entries[i];
              && (r.Ok? ==>
                    && r.value == UndoReport(i, if e.snapshotPath == None then 0 else 1,
                                             if e.kind in {FileCreate, ModInstall} then 1 else 0)
                    && t.journal.entries == w.journal.entries[i := e.(status := RolledBack)])
              && (r.Err? ==> t.journal.entries == w.journal.entries
                             && r.error in {RestoreFailed(SnapshotMissing), RestoreFailed(ChecksumMismatch)})
              && t.journal.transactions == w.journal.transactions && t.store == w.store
  {
  }

  // ------------------------------------------------------------------ where it is not a stack

  /**
   A target that did not exist has no snapshot: undoing its creation reports success only, and so
   does the automatic undo of a creation that failed half-way.
   */
  lemma UndoOfCreation(hash: Bytes -> int, w: World, op: Operation)
    requires op.target !in w.files && OnlyChanges(w.files, op.after, op.target)
    ensures var p := Performed(hash, w, op);
            var id := |w.journal.entries|;
            var (r, undone) := Undo(hash, p, Some(id));
            && r.Ok? && (op.kind.FileCreate? ==> r.value.filesDeleted == 1)
            && undone.files == op.after
            && (op.ending.Raises? ==> Execute(hash, w, op, Some(id)).files == op.after)
            && (op.after == w.files <==> op.target !in op.after)
  {
    if op.target !in op.after {
      forall q ensures SameAt(op.after, w.files, q) {
        if q != op.target { assert SameAt(w.files, op.after, q); }
      }
      SameFiles(op.after, w.files);
    }
  }

  /** An evicted snapshot makes the undo fail, and it then changes nothing. */
  lemma UndoNeedsSnapshot(hash: Bytes -> int, w: World, i: nat)
    requires i < |w.journal.entries| && w.journal.entries[i].snapshotPath.Some?
    ensures var e := w.journal.entries[i];
            var (r, undone) := Undo(hash, w, Some(i));
            && (r.Ok? <==> Restorable(hash, w.store, e.snapshotPath.value, true))
            && (e.snapshotPath.value !in w.store ==> undone == w)
            && (r.Err? ==> undone.journal == w.journal)
  {
  }
}
