/** `OperationJournal`: transaction rows and operation entries, updated in place. */
module Journal {
  import opened Wrappers

  datatype OperationType =
    | ModInstall | ModUninstall | ModUpdate | PluginClean | FileCreate | FileModify | FileDelete | FileRename

  datatype OperationStatus = Started | Completed | OperationFailed | RolledBack

  datatype TransactionStatus = Pending | Committed | TransactionRolledBack

  /** `at` is the timestamp of the row, which has a resolution of one second. */
  datatype Entry = Entry(
    transaction: nat, at: int, agent: string, kind: OperationType, target: string,
    snapshotPath: Option<string>, status: OperationStatus)

  datatype JournalError = NoActiveTransaction | TransactionNotPending | UnknownTransaction

  /** Row ids are the positions in the two tables. */
  datatype Tables = Tables(transactions: seq<TransactionStatus>, entries: seq<Entry>, current: Option<nat>)

  function BeginTransaction(j: Tables): Tables {
    j.(transactions := j.transactions + [Pending], current := Some(|j.transactions|))
  }

  predicate CanCommit(j: Tables, id: nat) {
    id < |j.transactions| && j.transactions[id] == Pending
  }

  function Commit(j: Tables, id: nat): Tables
    requires CanCommit(j, id)
  {
    j.(transactions := j.transactions[id := Committed],
       current := if j.current == Some(id) then None else j.current)
  }

  function Logged(j: Tables, e: Entry): Tables {
    j.(entries := j.entries + [e])
  }

  /** An update of a row that does not exist changes nothing. */
  function WithStatus(j: Tables, id: nat, status: OperationStatus): Tables {
    if id < |j.entries| then j.(entries := j.entries[id := j.entries[id].(status := status)]) else j
  }

  /** An operation that can still be undone. */
  predicate Undoable(entries: seq<Entry>, agent: string, i: nat) {
    i < |entries| && entries[i].agent == agent && (entries[i].status.Completed? || entries[i].status.OperationFailed?)
  }

  /** A row the query for the last operation may return: a latest one, any of them on a tie. */
  ghost predicate IsLast(entries: seq<Entry>, agent: string, i: nat) {
    && Undoable(entries, agent, i)
    && forall k :: 0 <= k < |entries| && Undoable(entries, agent, k) ==> entries[k].at <= entries[i].at
  }

  ghost predicate IsAnswer(entries: seq<Entry>, agent: string, answer: Option<nat>) {
    match answer
    case None => forall i :: 0 <= i < |entries| ==> !Undoable(entries, agent, i)
    case Some(i) => IsLast(entries, agent, i)
  }

  /** The newest undoable operation, by order of insertion. */
  ghost predicate IsNewest(entries: seq<Entry>, agent: string, i: nat) {
    && Undoable(entries, agent, i)
    && forall k :: 0 <= k < |entries| && Undoable(entries, agent, k) ==> k <= i
  }

  ghost predicate InTimeOrder(entries: seq<Entry>) {
    forall i, k :: 0 <= i < k < |entries| ==> entries[i].at <= entries[k].at
  }

  /**
   The query orders by the timestamp alone.  It must return the newest operation exactly when
   no other undoable operation of the agent has the same timestamp.
   */
  lemma LastIsNewest(entries: seq<Entry>, agent: string, n: nat)
    requires InTimeOrder(entries) && IsNewest(entries, agent, n)
    ensures (forall answer :: IsAnswer(entries, agent, answer) ==> answer == Some(n))
            <==> forall i :: 0 <= i < |entries| && Undoable(entries, agent, i) && i != n ==>
                  entries[i].at != entries[n].at
  {
    assert IsLast(entries, agent, n);
    if i :| 0 <= i < |entries| && Undoable(entries, agent, i) && i != n && entries[i].at == entries[n].at {
      assert IsLast(entries, agent, i);
      assert IsAnswer(entries, agent, Some(i)) && Some(i) != Some(n);
    }
  }

  class OperationJournal {
    var transactions: seq<TransactionStatus>
    var entries: seq<Entry>
    var current: Option<nat>

    constructor ()
      ensures View() == Tables([], [], None)
    {
      transactions, entries, current := [], [], None;
    }

    function View(): Tables
      reads this
    {
      Tables(transactions, entries, current)
    }

    method Begin() returns (id: nat)
      modifies this
      ensures View() == BeginTransaction(old(View()))
      ensures transactions == old(transactions) + [Pending] && current == Some(id) && entries == old(entries)
      ensures id == |old(transactions)| && CanCommit(View(), id)
    {
      id := |transactions|;
      transactions := transactions + [Pending];
      current := Some(id);
    }

    method CommitTransaction(id: nat) returns (r: Result<bool, JournalError>)
      modifies this
      ensures r.Ok? <==> CanCommit(old(View()), id)
      ensures r.Ok? <==> id < |old(transactions)| && old(transactions)[id] == Pending
      ensures r.Ok? ==> transactions == old(transactions)[id := Committed] && entries == old(entries)
      ensures r.Ok? ==> current == if old(current) == Some(id) then None else old(current)
      ensures r.Ok? ==> View() == Commit(old(View()), id)
      ensures r.Err? ==> r.error == TransactionNotPending && View() == old(View())
    {
      if id >= |transactions| || transactions[id] != Pending {
        return Err(TransactionNotPending);
      }
      transactions := transactions[id := Committed];
      if current == Some(id) {
        current := None;
      }
      r := Ok(true);
    }

    method BeginOperation(agent: string, kind: OperationType, target: string, transaction: Option<nat>,
                          snapshotPath: Option<string>, now: int)
      returns (r: Result<nat, JournalError>)
      modifies this
      ensures var tx := if transaction.Some? then transaction else old(current);
              if tx.None? then r == Err(NoActiveTransaction) && View() == old(View())
              else if tx.value >= |old(transactions)| then r == Err(UnknownTransaction) && View() == old(View())
              else r == Ok(|old(entries)|)
                   && View() == Logged(old(View()), Entry(tx.value, now, agent, kind, target, snapshotPath, Started))
    {
      var tx := if transaction.Some? then transaction else current;
      if tx.None? {
        return Err(NoActiveTransaction);
      }
      if tx.value >= |transactions| {
        return Err(UnknownTransaction);
      }
      r := Ok(|entries|);
      entries := entries + [Entry(tx.value, now, agent, kind, target, snapshotPath, Started)];
    }

    method UpdateStatus(id: nat, status: OperationStatus)
      modifies this
      ensures View() == WithStatus(old(View()), id, status)
      ensures transactions == old(transactions) && current == old(current)
      ensures entries == if id < |old(entries)| then old(entries)[id := old(entries)[id].(status := status)]
                         else old(entries)
    {
      if id < |entries| {
        entries := entries[id := entries[id].(status := status)];
      }
    }

    /** `ORDER BY timestamp DESC LIMIT 1`: among equal timestamps the choice is free. */
    method GetLastOperation(agent: string) returns (answer: Option<nat>)
      ensures IsAnswer(entries, agent, answer)
      ensures answer.Some? ==>
                && answer.value < |entries| && entries[answer.value].agent == agent
                && entries[answer.value].status in {Completed, OperationFailed}
      ensures forall k :: 0 <= k < |entries| && entries[k].agent == agent
                          && entries[k].status in {Completed, OperationFailed} ==>
                answer.Some? && entries[k].at <= entries[answer.value].at
    {
      answer := None;
      for i := 0 to |entries|
        invariant answer.None? ==> forall k :: 0 <= k < i ==> !Undoable(entries, agent, k)
        invariant answer.Some? ==> Undoable(entries, agent, answer.value)
        invariant answer.Some? ==> forall k :: 0 <= k < i && Undoable(entries, agent, k) ==>
              entries[k].at <= entries[answer.value].at
      {
        if Undoable(entries, agent, i) {
          var free: bool := *;
          if answer.None? || entries[i].at > entries[answer.value].at
             || (entries[i].at == entries[answer.value].at && free) {
            answer := Some(i);
          }
        }
      }
      forall k | 0 <= k < |entries| && entries[k].agent == agent && entries[k].status in {Completed, OperationFailed}
        ensures answer.Some? && entries[k].at <= entries[answer.value].at
      {
        assert Undoable(entries, agent, k);
      }
    }
  }
}
