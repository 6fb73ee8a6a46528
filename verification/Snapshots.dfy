/**
 `FileSnapshotManager`: copies of files kept in a store apart from the files themselves.
 A checksum function is a parameter; a copy is one atomic step.
 */
module Snapshots {
  import opened Wrappers

  type Path = string
  type Bytes = seq<bv8>
  type Files = map<Path, Bytes>

  /** A copy with the checksum of its sidecar file, if that file can be read. */
  datatype Snapshot = Snapshot(bytes: Bytes, checksum: Option<int>)

  type Store = map<Path, Snapshot>

  datatype SnapshotInfo = SnapshotInfo(originalPath: Path, snapshotPath: Path)

  datatype SnapshotError = FileMissing | SnapshotMissing | ChecksumMismatch

  /** The temporary copy that a restore keeps beside its target. */
  function BackupOf(target: Path): Path { target + ".restore_backup" }

  predicate Intact(hash: Bytes -> int, snap: Snapshot) {
    snap.checksum.Some? ==> snap.checksum.value == hash(snap.bytes)
  }

  /** The store after a snapshot of `path` was taken and the retention policy ran. */
  function Taken(hash: Bytes -> int, files: Files, store: Store, path: Path, name: Path, evicted: set<Path>): Store
    requires path in files
  {
    store[name := Snapshot(files[path], Some(hash(files[path])))] - evicted
  }

  /** When a restore from `snapshotPath` goes through. */
  predicate Restorable(hash: Bytes -> int, store: Store, snapshotPath: Path, verify: bool) {
    snapshotPath in store && (verify ==> Intact(hash, store[snapshotPath]))
  }

  /** The target gets the bytes of the copy; the temporary backup takes and frees its path. */
  function Restored(files: Files, target: Path, bytes: Bytes): Files {
    var copied := files[target := bytes];
    if target in files then copied - {BackupOf(target)} else copied
  }

  /** All effects of `restore_snapshot`, errors included. */
  function Restore(hash: Bytes -> int, files: Files, store: Store, snapshotPath: Path, target: Path, verify: bool)
    : (Result<bool, SnapshotError>, Files)
  {
    if snapshotPath !in store then (Err(SnapshotMissing), files)
    else if Restorable(hash, store, snapshotPath, verify) then
      (Ok(true), Restored(files, target, store[snapshotPath].bytes))
    else if target in files then (Err(ChecksumMismatch), files - {BackupOf(target)})
    else (Err(ChecksumMismatch), files[target := store[snapshotPath].bytes])
  }

  /** `b` agrees with `a` except perhaps at `p`. */
  ghost predicate OnlyChanges(a: Files, b: Files, p: Path) {
    forall q :: q != p ==> SameAt(a, b, q)
  }

  ghost predicate SameAt(a: Files, b: Files, p: Path) {
    (p in a <==> p in b) && (p in a && p in b ==> a[p] == b[p])
  }

  /**
   A restore undoes a change of its target exactly, unless it would delete a file that
   happens to have the name of the temporary backup.
   */
  lemma RestoreUndoes(before: Files, after: Files, target: Path)
    requires target in before && OnlyChanges(before, after, target)
    ensures Restored(after, target, before[target]) == before
            <==> (target in after ==> BackupOf(target) !in before)
  {
    assert |BackupOf(target)| > |target|;
    var r := Restored(after, target, before[target]);
    assert SameAt(before, after, BackupOf(target));
    if target in after ==> BackupOf(target) !in before {
      forall q ensures SameAt(r, before, q) {
        if q != target { assert SameAt(before, after, q); }
      }
      SameFiles(r, before);
    }
  }

  lemma SameFiles(a: Files, b: Files)
    requires forall q :: SameAt(a, b, q)
    ensures a == b
  {
    assert forall q :: q in a ==> SameAt(a, b, q);
    assert forall q :: q in b ==> SameAt(a, b, q);
  }

  /** A rejected checksum leaves the target as it was exactly when the target existed. */
  lemma RejectedRestoreKeepsTarget(hash: Bytes -> int, files: Files, store: Store, snapshotPath: Path, target: Path)
    requires snapshotPath in store && !Intact(hash, store[snapshotPath])
    ensures var r := Restore(hash, files, store, snapshotPath, target, true);
            && r.0.Err? && (SameAt(files, r.1, target) <==> target in files)
            && (target in files ==> BackupOf(target) !in r.1)
            && forall p :: p != target && (target in files ==> p != BackupOf(target)) ==> SameAt(files, r.1, p)
  {
    assert |BackupOf(target)| > |target|;
  }

  /** A restore fails exactly for a missing copy, or one whose checksum is known, checked and wrong. */
  lemma WhenRestoreFails(hash: Bytes -> int, files: Files, store: Store, snapshotPath: Path, target: Path,
                         verify: bool)
    ensures var (r, end) := Restore(hash, files, store, snapshotPath, target, verify);
            && (r == Err(SnapshotMissing) <==> snapshotPath !in store)
            && (r == Err(ChecksumMismatch) <==>
                  && snapshotPath in store && verify
                  && store[snapshotPath].checksum.Some?
                  && store[snapshotPath].checksum.value != hash(store[snapshotPath].bytes))
            && (r.Ok? ==> r.value && target in end && end[target] == store[snapshotPath].bytes)
            && (r == Err(SnapshotMissing) ==> end == files)
  {
    assert |BackupOf(target)| > |target|;
  }

  /** A snapshot that was not touched since brings the bytes of its file back, checksum and all. */
  lemma SnapshotRoundTrip(hash: Bytes -> int, files: Files, store: Store, path: Path, name: Path, evicted: set<Path>,
                          later: Files, target: Path)
    requires path in files && name !in evicted
    ensures var taken := Taken(hash, files, store, path, name, evicted);
            var (r, end) := Restore(hash, later, taken, name, target, true);
            && r == Ok(true) && target in end && end[target] == files[path]
            && (forall p :: p in taken <==> (p in store || p == name) && p !in evicted)
            && (forall p :: p in taken && p != name ==> taken[p] == store[p])
  {
    assert |BackupOf(target)| > |target|;
  }

  /** A copy that was tampered with is rejected, unless the hash does not tell. */
  lemma TamperingIsNoticed(hash: Bytes -> int, files: Files, store: Store, path: Path, name: Path, bytes: Bytes,
                           later: Files, target: Path)
    requires path in files
    ensures var taken := Taken(hash, files, store, path, name, {});
            var tampered := taken[name := taken[name].(bytes := bytes)];
            Restore(hash, later, tampered, name, target, true).0.Ok? <==> hash(bytes) == hash(files[path])
  {
  }

  /** The name of the temporary backup, in an example: a file with that name is lost. */
  lemma RestoreLosesNamesake(plugin: Bytes, backup: Bytes)
    ensures Restored(map["a.esp" := plugin, "a.esp.restore_backup" := backup], "a.esp", plugin)
            == map["a.esp" := plugin]
  {
    assert BackupOf("a.esp") == "a.esp.restore_backup";
  }

  class FileSystem {
    var files: Files

    constructor (files: Files)
      ensures this.files == files
    {
      this.files := files;
    }
  }

  class FileSnapshotManager {
    const hash: Bytes -> int
    const fs: FileSystem
    var store: Store

    constructor (hash: Bytes -> int, fs: FileSystem)
      ensures this.hash == hash && this.fs == fs && store == map[]
    {
      this.hash, this.fs := hash, fs;
      store := map[];
    }

    /**
     Copies the file under the generated name, writes the checksum sidecar and lets the
     retention policy remove `evicted`.
     */
    method CreateSnapshot(path: Path, name: Path, evicted: set<Path>) returns (r: Result<SnapshotInfo, SnapshotError>)
      modifies this
      ensures r.Err? <==> path !in fs.files
      ensures r.Err? ==> r.error == FileMissing && store == old(store)
      ensures r.Ok? ==> r.value == SnapshotInfo(path, name)
      ensures r.Ok? ==> store == Taken(hash, fs.files, old(store), path, name, evicted)
    {
      if path !in fs.files {
        return Err(FileMissing);
      }
      var checksum := hash(fs.files[path]);
      store := store[name := Snapshot(fs.files[path], Some(checksum))];
      store := store - evicted;
      r := Ok(SnapshotInfo(path, name));
    }

    /** The copy goes over the target; a mismatch is repaired from the temporary backup. */
    method RestoreSnapshot(snapshotPath: Path, target: Path, verify: bool)
      returns (r: Result<bool, SnapshotError>)
      modifies fs
      ensures (r, fs.files) == Restore(hash, old(fs.files), store, snapshotPath, target, verify)
    {
      if snapshotPath !in store {
        return Err(SnapshotMissing);
      }
      assert |BackupOf(target)| > |target|;
      var hasBackup := target in fs.files;
      if hasBackup {
        fs.files := fs.files[BackupOf(target) := fs.files[target]];
      }
      fs.files := fs.files[target := store[snapshotPath].bytes];
      if verify && store[snapshotPath].checksum.Some? {
        var actual := hash(fs.files[target]);
        if actual != store[snapshotPath].checksum.value {
          if hasBackup {
            fs.files := fs.files[target := fs.files[BackupOf(target)]];
            fs.files := fs.files - {BackupOf(target)};
            assert fs.files == old(fs.files) - {BackupOf(target)};
          }
          return Err(ChecksumMismatch);
        }
      }
      if hasBackup {
        fs.files := fs.files - {BackupOf(target)};
      }
      assert fs.files == Restored(old(fs.files), target, store[snapshotPath].bytes);
      r := Ok(true);
    }
  }
}
