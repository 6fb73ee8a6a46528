/**
 What the rollback of a `SnapshotTransactionLock` achieves, whatever the body did to the files.
 */
module TransactionAtomicity {
  import opened Leases
  import opened Snapshots
  import opened TransactionLocks
  import opened Wrappers

  /** Restores of `paths`, last first, to their content in `entry`. */
  function RestorePaths(files: Files, entry: Files, paths: seq<Path>): Files
    requires forall i :: 0 <= i < |paths| ==> paths[i] in entry
    decreases |paths|
  {
    if paths == [] then files
    else
      var n := |paths| - 1;
      RestorePaths(Restored(files, paths[n], entry[paths[n]]), entry, paths[..n])
  }

  /** The targets that have a snapshot: those that existed on entry. */
  function Existing(files: Files, targets: seq<Path>): (r: seq<Path>)
    ensures forall i :: 0 <= i < |r| ==> r[i] in files
    ensures forall t :: t in r <==> t in targets && t in files
  {
    if targets == [] then []
    else
      var rest := Existing(files, targets[1..]);
      assert forall t :: t in targets <==> t == targets[0] || t in targets[1..];
      if targets[0] in files then [targets[0]] + rest else rest
  }

  function PathsOf(snapshots: seq<SnapshotInfo>): seq<Path> {
    seq(|snapshots|, i requires 0 <= i < |snapshots| => snapshots[i].originalPath)
  }

  /** The snapshots are still in the store, with the entry content of their files. */
  ghost predicate Kept(entry: Files, store: Store, snapshots: seq<SnapshotInfo>) {
    forall i :: 0 <= i < |snapshots| ==>
      && snapshots[i].originalPath in entry && snapshots[i].snapshotPath in store
      && store[snapshots[i].snapshotPath].bytes == entry[snapshots[i].originalPath]
  }

  lemma {:induction false} RestoreAllPaths(hash: Bytes -> int, files: Files, entry: Files, store: Store,
                                           snapshots: seq<SnapshotInfo>)
    requires Kept(entry, store, snapshots)
    ensures RestoreAll(hash, files, store, snapshots) == RestorePaths(files, entry, PathsOf(snapshots))
    decreases |snapshots|
  {
    if snapshots != [] {
      var n := |snapshots| - 1;
      assert PathsOf(snapshots)[..n] == PathsOf(snapshots[..n]);
      RestoreAllPaths(hash, Restored(files, snapshots[n].originalPath, entry[snapshots[n].originalPath]),
                      entry, store, snapshots[..n]);
    }
  }

  // ------------------------------------------------------------------ what entering takes

  /** Generated names are new and different, and nothing needed is evicted meanwhile. */
  ghost predicate GoodPlan(store: Store, plan: seq<Plan>) {
    && (forall i :: 0 <= i < |plan| ==> plan[i].name !in store)
    && (forall i, j :: 0 <= i < j < |plan| ==> plan[i].name != plan[j].name)
    && (forall i, j :: 0 <= i < |plan| && 0 <= j < |plan| ==> plan[i].name !in plan[j].evicted)
  }

  /** Entering snapshots exactly the existing targets, with their content. */
  lemma {:induction false} TakeAllKeeps(hash: Bytes -> int, files: Files, store: Store, targets: seq<Path>,
                                        plan: seq<Plan>)
    requires |targets| == |plan| && GoodPlan(store, plan)
    requires TakeAll(hash, files, store, targets, plan).ok
    ensures var e := TakeAll(hash, files, store, targets, plan);
            && PathsOf(e.snapshots) == Existing(files, targets) && Kept(files, e.store, e.snapshots)
    decreases |targets|
  {
    if targets != [] {
      if targets[0] !in files {
        GoodPlanTail(store, store, plan);
        TakeAllKeeps(hash, files, store, targets[1..], plan[1..]);
      } else {
        var store' := Taken(hash, files, store, targets[0], plan[0].name, plan[0].evicted);
        GoodPlanTail(store, store', plan);
        TakeAllKeeps(hash, files, store', targets[1..], plan[1..]);
        TakeAllFrame(hash, files, store', targets[1..], plan[1..], plan[0].name);
        var rest := TakeAll(hash, files, store', targets[1..], plan[1..]);
        PathsOfCons(SnapshotInfo(targets[0], plan[0].name), rest.snapshots);
        assert Existing(files, targets) == [targets[0]] + Existing(files, targets[1..]);
      }
    }
  }

  lemma PathsOfCons(info: SnapshotInfo, rest: seq<SnapshotInfo>)
    ensures PathsOf([info] + rest) == [info.originalPath] + PathsOf(rest)
  {
  }

  lemma GoodPlanTail(store: Store, store': Store, plan: seq<Plan>)
    requires GoodPlan(store, plan) && plan != []
    requires forall p :: p in store' ==> p in store || p == plan[0].name
    ensures GoodPlan(store', plan[1..])
  {
  }

  /** A snapshot taken earlier stays in the store. */
  lemma {:induction false} TakeAllFrame(hash: Bytes -> int, files: Files, store: Store, targets: seq<Path>,
                                        plan: seq<Plan>, name: Path)
    requires |targets| == |plan| && name in store
    requires forall i :: 0 <= i < |plan| ==> plan[i].name != name && name !in plan[i].evicted
    ensures var e := TakeAll(hash, files, store, targets, plan);
            name in e.store && e.store[name] == store[name]
    decreases |targets|
  {
    if targets != [] {
      if targets[0] !in files {
        TakeAllFrame(hash, files, store, targets[1..], plan[1..], name);
      } else if !plan[0].fails {
        var store' := Taken(hash, files, store, targets[0], plan[0].name, plan[0].evicted);
        TakeAllFrame(hash, files, store', targets[1..], plan[1..], name);
      }
    }
  }

  // ------------------------------------------------------------------ what the rollback does

  /** Only the targets and the paths of their temporary backups are touched. */
  lemma {:induction false} OthersUntouched(files: Files, entry: Files, paths: seq<Path>, p: Path)
    requires forall i :: 0 <= i < |paths| ==> paths[i] in entry
    requires forall i :: 0 <= i < |paths| ==> paths[i] != p && BackupOf(paths[i]) != p
    ensures SameAt(files, RestorePaths(files, entry, paths), p)
    decreases |paths|
  {
    if paths != [] {
      var n := |paths| - 1;
      OthersUntouched(Restored(files, paths[n], entry[paths[n]]), entry, paths[..n], p);
    }
  }

  /** A target named like the backup of another one must also come before that one in the list. */
  ghost predicate BackupsFirst(paths: seq<Path>) {
    forall i :: 0 <= i < |paths| && BackupOf(paths[i]) in paths ==> BackupOf(paths[i]) in paths[..i]
  }

  ghost predicate AllRestored(entry: Files, files: Files, paths: seq<Path>) {
    forall i :: 0 <= i < |paths| ==> SameAt(entry, files, paths[i])
  }

  lemma BackupsFirstPrefix(paths: seq<Path>)
    requires BackupsFirst(paths) && paths != []
    ensures BackupsFirst(paths[..|paths| - 1])
  {
    var n := |paths| - 1;
    forall i | 0 <= i < n && BackupOf(paths[..n][i]) in paths[..n]
      ensures BackupOf(paths[..n][i]) in paths[..n][..i]
    {
      assert paths[..n][..i] == paths[..i];
    }
  }

  /** If the last target is listed once, no restore before it in the list deletes it. */
  lemma NoLaterHarm(paths: seq<Path>)
    requires BackupsFirst(paths) && paths != [] && paths[|paths| - 1] !in paths[..|paths| - 1]
    ensures forall k :: 0 <= k < |paths| - 1 ==>
              paths[k] != paths[|paths| - 1] && BackupOf(paths[k]) != paths[|paths| - 1]
  {
    var n := |paths| - 1;
    forall k | 0 <= k < n ensures paths[k] != paths[n] && BackupOf(paths[k]) != paths[n] {
      assert paths[k] in paths[..n];
    }
  }

  lemma {:induction false} BackupsFirstRestores(files: Files, entry: Files, paths: seq<Path>)
    requires forall i :: 0 <= i < |paths| ==> paths[i] in entry
    requires BackupsFirst(paths)
    ensures AllRestored(entry, RestorePaths(files, entry, paths), paths)
    decreases |paths|
  {
    if paths != [] {
      var n := |paths| - 1;
      var restored := Restored(files, paths[n], entry[paths[n]]);
      assert |BackupOf(paths[n])| > |paths[n]|;
      BackupsFirstPrefix(paths);
      BackupsFirstRestores(restored, entry, paths[..n]);
      forall i | 0 <= i < |paths| ensures SameAt(entry, RestorePaths(files, entry, paths), paths[i]) {
        if paths[i] in paths[..n] {
          var k :| 0 <= k < n && paths[k] == paths[i];
          assert SameAt(entry, RestorePaths(restored, entry, paths[..n]), paths[..n][k]);
        } else {
          assert i == n;
          NoLaterHarm(paths);
          OthersUntouched(restored, entry, paths[..n], paths[n]);
        }
      }
    }
  }

  // ------------------------------------------------------------------ and when the order matters

  ghost predicate Distinct(paths: seq<Path>) {
    forall i, j :: 0 <= i < j < |paths| ==> paths[i] != paths[j]
  }

  lemma {:induction false} RestorePathsSplit(files: Files, entry: Files, a: seq<Path>, b: seq<Path>)
    requires forall i :: 0 <= i < |a| ==> a[i] in entry
    requires forall i :: 0 <= i < |b| ==> b[i] in entry
    ensures RestorePaths(files, entry, a + b) == RestorePaths(RestorePaths(files, entry, b), entry, a)
    decreases |b|
  {
    if b == [] {
      assert a + b == a;
    } else {
      var n := |b| - 1;
      assert (a + b)[..|a| + n] == a + b[..n];
      RestorePathsSplit(Restored(files, b[n], entry[b[n]]), entry, a, b[..n]);
    }
  }

  /** Restoring files that are all missing deletes nothing. */
  lemma {:induction false} MissingOnesDeleteNothing(files: Files, entry: Files, paths: seq<Path>, p: Path)
    requires forall i :: 0 <= i < |paths| ==> paths[i] in entry && paths[i] !in files
    requires Distinct(paths) && p in files
    ensures p in RestorePaths(files, entry, paths)
    decreases |paths|
  {
    if paths != [] {
      var n := |paths| - 1;
      MissingOnesDeleteNothing(files[paths[n] := entry[paths[n]]], entry, paths[..n], p);
    }
  }

  /** A restore of other files never brings a missing file back. */
  lemma {:induction false} MissingStaysMissing(files: Files, entry: Files, paths: seq<Path>, p: Path)
    requires forall i :: 0 <= i < |paths| ==> paths[i] in entry
    requires p !in paths && p !in files
    ensures p !in RestorePaths(files, entry, paths)
    decreases |paths|
  {
    if paths != [] {
      var n := |paths| - 1;
      MissingStaysMissing(Restored(files, paths[n], entry[paths[n]]), entry, paths[..n], p);
    }
  }

  ghost predicate AlwaysRestores(entry: Files, paths: seq<Path>)
    requires forall i :: 0 <= i < |paths| ==> paths[i] in entry
  {
    forall files: Files :: AllRestored(entry, RestorePaths(files, entry, paths), paths)
  }

  /** Restoring a file that is there deletes the file with the name of its temporary backup for good. */
  lemma BackupDeleted(late: Files, entry: Files, paths: seq<Path>, i: nat)
    requires forall k :: 0 <= k < |paths| ==> paths[k] in entry
    requires i < |paths| && paths[i] in late && BackupOf(paths[i]) !in paths[..i]
    ensures BackupOf(paths[i]) !in RestorePaths(late, entry, paths[..i + 1])
  {
    var x := paths[i];
    assert |BackupOf(x)| > |x|;
    MissingStaysMissing(Restored(late, x, entry[x]), entry, paths[..i], BackupOf(x));
    assert paths[..i + 1][..i] == paths[..i];
  }

  /** A backup name behind its target is deleted, for instance when only that target is left. */
  lemma OrderMatters(entry: Files, paths: seq<Path>, i: nat)
    requires forall k :: 0 <= k < |paths| ==> paths[k] in entry
    requires Distinct(paths) && i < |paths|
    requires BackupOf(paths[i]) in paths && BackupOf(paths[i]) !in paths[..i]
    ensures !AlwaysRestores(entry, paths)
  {
    var x, t := paths[i], BackupOf(paths[i]);
    var files: Files := map[x := entry[x]];
    var late := RestorePaths(files, entry, paths[i + 1..]);
    assert x in late by {
      MissingOnesDeleteNothing(files, entry, paths[i + 1..], x);
    }
    BackupDeleted(late, entry, paths, i);
    assert t !in RestorePaths(files, entry, paths) by {
      assert paths == paths[..i + 1] + paths[i + 1..];
      RestorePathsSplit(files, entry, paths[..i + 1], paths[i + 1..]);
    }
    var k :| 0 <= k < |paths| && paths[k] == t;
    assert !SameAt(entry, RestorePaths(files, entry, paths), paths[k]);
  }

  /** For different targets, the order condition is exact: no body can defeat the rollback. */
  lemma WhenRollbackRestores(entry: Files, paths: seq<Path>)
    requires forall i :: 0 <= i < |paths| ==> paths[i] in entry
    requires Distinct(paths)
    ensures AlwaysRestores(entry, paths) <==> BackupsFirst(paths)
  {
    if BackupsFirst(paths) {
      forall files: Files ensures AllRestored(entry, RestorePaths(files, entry, paths), paths) {
        BackupsFirstRestores(files, entry, paths);
      }
    } else {
      var i :| 0 <= i < |paths| && BackupOf(paths[i]) in paths && BackupOf(paths[i]) !in paths[..i];
      OrderMatters(entry, paths, i);
    }
  }

  /**
   With repeated targets the order condition is enough but not needed: the second restore of `y`
   always deletes `x`, so the restore of `x` finds no file and deletes nothing.
   */
  lemma RepetitionCanReplaceOrder(entry: Files, y: Path)
    requires y in entry && BackupOf(y) in entry && BackupOf(BackupOf(y)) in entry
    ensures var x := BackupOf(y); var t := BackupOf(x);
            AlwaysRestores(entry, [x, t, y, y]) && !BackupsFirst([x, t, y, y])
  {
    var x := BackupOf(y);
    var t := BackupOf(x);
    var paths := [x, t, y, y];
    assert |t| > |x| > |y| && |BackupOf(t)| > |t|;
    assert BackupOf(paths[0]) == paths[1] && paths[..0] == [];
    forall files: Files ensures AllRestored(entry, RestorePaths(files, entry, paths), paths) {
      assert paths[..3] == [x, t, y] && [x, t, y][..2] == [x, t] && [x, t][..1] == [x] && [x][..0] == [];
      var a := Restored(files, y, entry[y]);
      var b := Restored(a, y, entry[y]);
      var c := Restored(b, t, entry[t]);
      assert y in a && x !in b && x !in c && t in c && y in c;
      assert RestorePaths(files, entry, paths) == RestorePaths(a, entry, [x, t, y]);
      assert RestorePaths(a, entry, [x, t, y]) == RestorePaths(b, entry, [x, t]);
      assert RestorePaths(b, entry, [x, t]) == RestorePaths(c, entry, [x]);
      assert RestorePaths(c, entry, [x]) == RestorePaths(Restored(c, x, entry[x]), entry, []);
    }
  }

  // ------------------------------------------------------------------ the whole transaction

  /** No snapshot of the transaction was changed or removed by the time it ends. */
  ghost predicate StillStored(e: Entered, store: Store) {
    forall i :: 0 <= i < |e.snapshots| && e.snapshots[i].snapshotPath in e.store ==>
      && e.snapshots[i].snapshotPath in store
      && store[e.snapshots[i].snapshotPath] == e.store[e.snapshots[i].snapshotPath]
  }

  lemma {:induction false} RestoreAllSplit(hash: Bytes -> int, files: Files, store: Store,
                                           a: seq<SnapshotInfo>, b: seq<SnapshotInfo>)
    ensures RestoreAll(hash, files, store, a + b) == RestoreAll(hash, RestoreAll(hash, files, store, b), store, a)
    decreases |b|
  {
    if b == [] {
      assert a + b == a;
    } else {
      var n := |b| - 1;
      assert (a + b)[..|a| + n] == a + b[..n];
      var restored := Restore(hash, files, store, b[n].snapshotPath, b[n].originalPath, false).1;
      RestoreAllSplit(hash, restored, store, a, b[..n]);
    }
  }

  /** The path is none of the files of the snapshots, nor one of their temporary backups. */
  ghost predicate Foreign(snapshots: seq<SnapshotInfo>, p: Path) {
    forall i :: 0 <= i < |snapshots| ==>
      snapshots[i].originalPath != p && BackupOf(snapshots[i].originalPath) != p
  }

  lemma {:induction false} ForeignUntouched(hash: Bytes -> int, files: Files, store: Store,
                                            snapshots: seq<SnapshotInfo>, p: Path)
    requires Foreign(snapshots, p)
    ensures SameAt(files, RestoreAll(hash, files, store, snapshots), p)
    decreases |snapshots|
  {
    if snapshots != [] {
      var n := |snapshots| - 1;
      var restored := Restore(hash, files, store, snapshots[n].snapshotPath, snapshots[n].originalPath, false).1;
      ForeignUntouched(hash, restored, store, snapshots[..n], p);
    }
  }

  // ------------------------------------------------------------------ repeated snapshots of a file

  /** A snapshot of the file that was not removed since. */
  predicate IsCopy(snapshot: SnapshotInfo, store: Store, p: Path) {
    snapshot.originalPath == p && snapshot.snapshotPath in store
  }

  /** The bytes of the first such snapshot: it is restored last. */
  function FirstCopy(snapshots: seq<SnapshotInfo>, store: Store, p: Path): Option<Bytes> {
    if snapshots == [] then None
    else if IsCopy(snapshots[0], store, p) then Some(store[snapshots[0].snapshotPath].bytes)
    else FirstCopy(snapshots[1..], store, p)
  }

  /** No restore after that of the first copy has `p` as its temporary backup. */
  predicate Unharmed(snapshots: seq<SnapshotInfo>, store: Store, p: Path) {
    || snapshots == []
    || IsCopy(snapshots[0], store, p)
    || ((snapshots[0].snapshotPath !in store || BackupOf(snapshots[0].originalPath) != p)
        && Unharmed(snapshots[1..], store, p))
  }

  /** The rollback leaves a file with the bytes of its first copy, or untouched if there is none. */
  lemma {:induction false} RestoredTo(hash: Bytes -> int, files: Files, store: Store,
                                      snapshots: seq<SnapshotInfo>, p: Path)
    requires Unharmed(snapshots, store, p)
    ensures var end := RestoreAll(hash, files, store, snapshots);
            match FirstCopy(snapshots, store, p)
            case None => SameAt(files, end, p)
            case Some(bytes) => p in end && end[p] == bytes
  {
    if snapshots != [] {
      var first, rest := snapshots[0], snapshots[1..];
      var before := RestoreAll(hash, files, store, rest);
      assert snapshots == [first] + rest;
      RestoreAllSplit(hash, files, store, [first], rest);
      assert [first][..0] == [];
      assert RestoreAll(hash, before, store, [first])
          == Restore(hash, before, store, first.snapshotPath, first.originalPath, false).1;
      assert |BackupOf(first.originalPath)| > |first.originalPath|;
      if !IsCopy(first, store, p) {
        RestoredTo(hash, files, store, rest, p);
      }
    }
  }

  /** When no listed file is named like the backup of another one, no copy is harmed. */
  lemma {:induction false} PlainNamesUnharmed(snapshots: seq<SnapshotInfo>, store: Store, p: Path)
    requires forall i :: 0 <= i < |snapshots| ==> BackupOf(snapshots[i].originalPath) != p
    ensures Unharmed(snapshots, store, p)
  {
    if snapshots != [] {
      assert forall i :: 0 <= i < |snapshots[1..]| ==> snapshots[1..][i] == snapshots[i + 1];
      PlainNamesUnharmed(snapshots[1..], store, p);
    }
  }

  lemma {:induction false} ForeignHasNoCopy(snapshots: seq<SnapshotInfo>, store: Store, p: Path)
    requires Foreign(snapshots, p)
    ensures FirstCopy(snapshots, store, p).None? && Unharmed(snapshots, store, p)
  {
    if snapshots != [] {
      assert forall i :: 0 <= i < |snapshots[1..]| ==> snapshots[1..][i] == snapshots[i + 1];
      ForeignHasNoCopy(snapshots[1..], store, p);
    }
  }

  // ------------------------------------------------------------------ from entry to exit

  /** No snapshot of an earlier use of the lock object overrides the one of this use. */
  predicate Agrees(earlier: seq<SnapshotInfo>, store: Store, t: Path, bytes: Bytes) {
    FirstCopy(earlier, store, t) in {None, Some(bytes)}
  }

  /**
   What the rollback achieves.  A target is as on entry exactly if the earlier snapshots agree, and
   files that have nothing to do with any snapshot are as the body left them.
   */
  ghost predicate RolledBack(entry: Files, body: Files, end: Files, targets: seq<Path>,
                             earlier: seq<SnapshotInfo>, store: Store) {
    && (forall t :: t in targets && t in entry && Unharmed(earlier, store, t) ==>
          (SameAt(entry, end, t) <==> Agrees(earlier, store, t, entry[t])))
    && (forall p :: p !in targets && (forall t :: t in targets ==> BackupOf(t) != p) && Foreign(earlier, p)
                    ==> SameAt(body, end, p))
  }

  /** The snapshots of this use alone take every target back, and touch nothing else. */
  lemma TakenRestored(hash: Bytes -> int, entry: Files, store: Store, targets: seq<Path>, plan: seq<Plan>,
                      body: Files, storeAtExit: Store)
    requires |targets| == |plan| && GoodPlan(store, plan)
    requires TakeAll(hash, entry, store, targets, plan).ok
    requires BackupsFirst(Existing(entry, targets))
    requires StillStored(TakeAll(hash, entry, store, targets, plan), storeAtExit)
    ensures var files := RestoreAll(hash, body, storeAtExit, TakeAll(hash, entry, store, targets, plan).snapshots);
            && (forall t :: t in targets && t in entry ==> SameAt(entry, files, t))
            && (forall p :: p !in targets && (forall t :: t in targets ==> BackupOf(t) != p) ==> SameAt(body, files, p))
  {
    var e := TakeAll(hash, entry, store, targets, plan);
    var paths := Existing(entry, targets);
    TakeAllKeeps(hash, entry, store, targets, plan);
    assert Kept(entry, storeAtExit, e.snapshots);
    RestoreAllPaths(hash, body, entry, storeAtExit, e.snapshots);
    BackupsFirstRestores(body, entry, paths);
    var files := RestorePaths(body, entry, paths);
    forall t | t in targets && t in entry ensures SameAt(entry, files, t) {
      assert t in paths;
      var i :| 0 <= i < |paths| && paths[i] == t;
    }
    forall p | p !in targets && (forall t :: t in targets ==> BackupOf(t) != p) ensures SameAt(body, files, p) {
      forall i | 0 <= i < |paths| ensures paths[i] != p && BackupOf(paths[i]) != p {
        assert paths[i] in paths;
      }
      OthersUntouched(body, entry, paths, p);
    }
  }

  /** What the earlier snapshots, restored after that, leave of a target. */
  lemma EarlierOverrides(hash: Bytes -> int, entry: Files, files: Files, store: Store,
                         earlier: seq<SnapshotInfo>, t: Path)
    requires t in entry && SameAt(entry, files, t)
    ensures var end := RestoreAll(hash, files, store, earlier);
            && (Unharmed(earlier, store, t) ==> (SameAt(entry, end, t) <==> Agrees(earlier, store, t, entry[t])))
            && (Foreign(earlier, t) ==> SameAt(entry, end, t))
  {
    if Foreign(earlier, t) {
      ForeignHasNoCopy(earlier, store, t);
    }
    if Unharmed(earlier, store, t) {
      RestoredTo(hash, files, store, earlier, t);
    }
  }

  /**
   Enter, any body, exit with an exception: every target that existed has its entry content
   again, duplicates in the list included, and no other file is touched.  A lock object that is
   used again still holds the snapshots `earlier`, which are restored last.
   */
  lemma TransactionRollsBack(hash: Bytes -> int, entry: Files, store: Store, targets: seq<Path>, plan: seq<Plan>,
                             body: Files, storeAtExit: Store, earlier: seq<SnapshotInfo>)
    requires |targets| == |plan| && GoodPlan(store, plan)
    requires TakeAll(hash, entry, store, targets, plan).ok
    requires BackupsFirst(Existing(entry, targets))
    requires StillStored(TakeAll(hash, entry, store, targets, plan), storeAtExit)
    ensures var snapshots := earlier + TakeAll(hash, entry, store, targets, plan).snapshots;
            var end := RestoreAll(hash, body, storeAtExit, snapshots);
            && RolledBack(entry, body, end, targets, earlier, storeAtExit)
            && (forall t :: t in targets && t in entry && Foreign(earlier, t) ==> SameAt(entry, end, t))
  {
    var taken := TakeAll(hash, entry, store, targets, plan).snapshots;
    var files := RestoreAll(hash, body, storeAtExit, taken);
    TakenRestored(hash, entry, store, targets, plan, body, storeAtExit);
    RestoreAllSplit(hash, body, storeAtExit, earlier, taken);
    forall t | t in targets && t in entry
      ensures Unharmed(earlier, storeAtExit, t) ==>
                (SameAt(entry, RestoreAll(hash, files, storeAtExit, earlier), t)
                 <==> Agrees(earlier, storeAtExit, t, entry[t]))
      ensures Foreign(earlier, t) ==> SameAt(entry, RestoreAll(hash, files, storeAtExit, earlier), t)
    {
      EarlierOverrides(hash, entry, files, storeAtExit, earlier, t);
    }
    forall p | p !in targets && (forall t :: t in targets ==> BackupOf(t) != p) && Foreign(earlier, p)
      ensures SameAt(body, RestoreAll(hash, files, storeAtExit, earlier), p)
    {
      ForeignUntouched(hash, files, storeAtExit, earlier, p);
    }
  }

  /** Every target that existed on entry has its entry content. */
  ghost predicate AllBack(entry: Files, end: Files, targets: seq<Path>) {
    forall t :: t in targets && t in entry ==> SameAt(entry, end, t)
  }

  /**
   A lock object used again rolls back all its targets exactly if, for each of them, the first
   snapshot of its earlier uses that is still stored, if any, has the bytes of this entry.
   */
  lemma WhenReuseRestores(hash: Bytes -> int, entry: Files, store: Store, targets: seq<Path>, plan: seq<Plan>,
                          body: Files, storeAtExit: Store, earlier: seq<SnapshotInfo>)
    requires |targets| == |plan| && GoodPlan(store, plan)
    requires TakeAll(hash, entry, store, targets, plan).ok
    requires BackupsFirst(Existing(entry, targets))
    requires StillStored(TakeAll(hash, entry, store, targets, plan), storeAtExit)
    requires forall t, i :: t in targets && 0 <= i < |earlier| ==> BackupOf(earlier[i].originalPath) != t
    ensures var snapshots := earlier + TakeAll(hash, entry, store, targets, plan).snapshots;
            AllBack(entry, RestoreAll(hash, body, storeAtExit, snapshots), targets)
            <==> forall t :: t in targets && t in entry ==> Agrees(earlier, storeAtExit, t, entry[t])
  {
    TransactionRollsBack(hash, entry, store, targets, plan, body, storeAtExit, earlier);
    forall t | t in targets ensures Unharmed(earlier, storeAtExit, t) {
      PlainNamesUnharmed(earlier, storeAtExit, t);
    }
  }

  /** `async with` the lock: the body leaves the files as `body`, and raises or not. */
  method Transact(lock: SnapshotTransactionLock, script: seq<Attempt>, plan: seq<Plan>, body: Files, raised: bool,
                  releaseError: bool)
    returns (entered: bool)
    requires |script| >= lock.locks.maxRetries && |plan| == |lock.targets|
    modifies lock, lock.locks, lock.manager, lock.manager.fs
    ensures entered <==>
              && Attempts(old(lock.locks.rows), lock.resource, lock.agent, lock.locks.Ttl(lock.ttl),
                          script[..lock.locks.maxRetries]).0.Acquired?
              && CanSnapshot(old(lock.manager.fs.files), lock.targets, plan)
    ensures !entered ==> lock.manager.fs.files == old(lock.manager.fs.files)
    ensures entered && !raised ==> lock.manager.fs.files == body
    ensures entered && raised && GoodPlan(old(lock.manager.store), plan)
            && BackupsFirst(Existing(old(lock.manager.fs.files), lock.targets)) ==>
              RolledBack(old(lock.manager.fs.files), body, lock.manager.fs.files, lock.targets,
                         old(lock.snapshots), lock.manager.store)
    ensures entered && raised && old(lock.snapshots) == [] && GoodPlan(old(lock.manager.store), plan)
            && BackupsFirst(Existing(old(lock.manager.fs.files), lock.targets)) ==>
              AllBack(old(lock.manager.fs.files), lock.manager.fs.files, lock.targets)
    ensures !releaseError ==>
              || !Holds(lock.locks.rows, lock.resource, lock.agent)
              || (!entered && Attempts(old(lock.locks.rows), lock.resource, lock.agent, lock.locks.Ttl(lock.ttl),
                                       script[..lock.locks.maxRetries]).0.Refused?)
  {
    ghost var entry, store := lock.manager.fs.files, lock.manager.store;
    entered := lock.Enter(script, plan, releaseError);
    if !entered {
      return;
    }
    lock.manager.fs.files := body;
    lock.Exit(raised, releaseError);
    if raised && GoodPlan(store, plan) && BackupsFirst(Existing(entry, lock.targets)) {
      TransactionRollsBack(lock.manager.hash, entry, store, lock.targets, plan, body, lock.manager.store,
                           old(lock.snapshots));
    }
  }
}
