/**
 `RollbackManager` and the unit of work `SyncEngine.execute_file_operation`: an undo log made
 of a journal and a snapshot store.
 */
module Rollback {
  import opened Wrappers
  import opened Snapshots
  import opened Journal

  /** Everything an operation can change: files, snapshot store, journal. */
  datatype World = World(files: Files, store: Store, journal: Tables)

  datatype UndoError = NothingToUndo | RestoreFailed(error: SnapshotError)

  /** `filesDeleted` is what the code reports; it deletes no file. */
  datatype UndoReport = UndoReport(entry: nat, entriesRestored: nat, filesDeleted: nat)

  function ReportOf(e: Entry, i: nat): UndoReport {
    UndoReport(i, if e.snapshotPath.Some? then 1 else 0,
               if e.kind.FileCreate? || e.kind.ModInstall? then 1 else 0)
  }

  /** `undo_last_operation`, when the journal answers the query with `answer`. */
  function Undo(hash: Bytes -> int, w: World, answer: Option<nat>): (Result<UndoReport, UndoError>, World)
    requires answer.Some? ==> answer.value < |w.journal.entries|
  {
    if answer.None? then (Err(NothingToUndo), w)
    else
      var i := answer.value;
      var e := w.journal.entries[i];
      var marked := WithStatus(w.journal, i, RolledBack);
      if e.snapshotPath.None? then (Ok(ReportOf(e, i)), w.(journal := marked))
      else
        var (r, files) := Restore(hash, w.files, w.store, e.snapshotPath.value, e.target, true);
        if r.Ok? then (Ok(ReportOf(e, i)), w.(files := files, journal := marked))
        else (Err(RestoreFailed(r.error)), w.(files := files))
  }

  /** How the coroutine of the caller ends; a cancellation is no `Exception`. */
  datatype Ending = Returns | Raises | Cancelled

  /** One call of `execute_file_operation`, with all that it meets on the way. */
  datatype Operation = Operation(
    agent: string, kind: OperationType, target: Path,
    now: int,                // timestamp of the journal row
    name: Path,              // generated name of the snapshot, if one is taken
    evicted: set<Path>,      // snapshots the retention policy removes meanwhile
    after: Files,            // the files when the coroutine of the caller ends
    ending: Ending,
    pruned: set<Path>)       // snapshots removed by the passive pruning at the end

  /** Transaction, snapshot if the target exists, journal row. */
  function Prepare(hash: Bytes -> int, w: World, op: Operation): World {
    var taken := op.target in w.files;
    World(w.files,
          if taken then Taken(hash, w.files, w.store, op.target, op.name, op.evicted) else w.store,
          Logged(BeginTransaction(w.journal),
                 Entry(|w.journal.transactions|, op.now, op.agent, op.kind, op.target,
                       if taken then Some(op.name) else None, Started)))
  }

  /** The operation has run and its row says how it ended. */
  function Performed(hash: Bytes -> int, w: World, op: Operation): World {
    var p := Prepare(hash, w, op).(files := op.after);
    var id := |w.journal.entries|;
    match op.ending
    case Returns => p.(journal := Commit(WithStatus(p.journal, id, Completed), |w.journal.transactions|))
    case Raises => p.(journal := WithStatus(p.journal, id, OperationFailed))
    case Cancelled => p
  }

  /** The whole call; after a failure the last operation of the agent is undone. */
  function Execute(hash: Bytes -> int, w: World, op: Operation, answer: Option<nat>): World
    requires answer.Some? ==> answer.value <= |w.journal.entries|
  {
    var p := Performed(hash, w, op);
    var q := if op.ending.Raises? then Undo(hash, p, answer).1 else p;
    q.(store := q.store - op.pruned)
  }

  class RollbackManager {
    const journal: OperationJournal
    const snapshots: FileSnapshotManager

    constructor (journal: OperationJournal, snapshots: FileSnapshotManager)
      ensures this.journal == journal && this.snapshots == snapshots
    {
      this.journal, this.snapshots := journal, snapshots;
    }

    function View(): World
      reads this, journal, snapshots, snapshots.fs
    {
      World(snapshots.fs.files, snapshots.store, journal.View())
    }

    method UndoLastOperation(agent: string)
      returns (r: Result<UndoReport, UndoError>, ghost answer: Option<nat>)
      modifies journal, snapshots.fs
      ensures IsAnswer(old(journal.entries), agent, answer)
      ensures (r, View()) == Undo(snapshots.hash, old(View()), answer)
    {
      var last := journal.GetLastOperation(agent);
      answer := last;
      if last.None? {
        return Err(NothingToUndo), answer;
      }
      var e := journal.entries[last.value];
      if e.snapshotPath.Some? {
        var restored := snapshots.RestoreSnapshot(e.snapshotPath.value, e.target, true);
        if restored.Err? {
          return Err(RestoreFailed(restored.error)), answer;
        }
      }
      journal.UpdateStatus(last.value, RolledBack);
      r := Ok(ReportOf(e, last.value));
    }

    /** The unit of work; `raised` tells whether the exception of the operation is re-raised. */
    method ExecuteFileOperation(op: Operation) returns (raised: bool, ghost answer: Option<nat>)
      modifies journal, snapshots, snapshots.fs
      ensures raised == !op.ending.Returns?
      ensures op.ending.Raises? ==>
                IsAnswer(Performed(snapshots.hash, old(View()), op).journal.entries, op.agent, answer)
      ensures !op.ending.Raises? ==> answer == None
      ensures View() == Execute(snapshots.hash, old(View()), op, answer)
    {
      answer := None;
      var transaction := journal.Begin();
      var snapshotPath: Option<Path> := None;
      if op.target in snapshots.fs.files {
        var info := snapshots.CreateSnapshot(op.target, op.name, op.evicted);
        snapshotPath := Some(info.value.snapshotPath);
      }
      var entry := journal.BeginOperation(op.agent, op.kind, op.target, Some(transaction), snapshotPath, op.now);
      assert View() == Prepare(snapshots.hash, old(View()), op);
      snapshots.fs.files := op.after;
      match op.ending {
        case Returns =>
          journal.UpdateStatus(entry.value, Completed);
          var committed := journal.CommitTransaction(transaction);
        case Raises =>
          journal.UpdateStatus(entry.value, OperationFailed);
          var undone;
          undone, answer := UndoLastOperation(op.agent);
        case Cancelled =>
      }
      snapshots.store := snapshots.store - op.pruned;
      raised := !op.ending.Returns?;
    }
  }
}
