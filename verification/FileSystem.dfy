/** The file system as an object, and the loops of the transaction that work on it call by call. */
module FileSystem {
  import opened Options
  import opened FileTransaction
  import opened FileRollback
  import opened FileGuarantees

  class FileSystem {
    var files: Files
    var staging: Files
    var calls: nat
    const env: Env

    function View(): World
      reads this
    {
      World(files, staging, calls)
    }

    constructor (files: Files, env: Env)
      ensures View() == World(files, map[], 0) && this.env == env
    {
      this.files, staging, calls, this.env := files, map[], 0, env;
    }

    /** A call that changes none of the files here: resolving a path, reading, creating a directory. */
    method Attempt() returns (ok: bool)
      modifies this`calls
      ensures View() == Called(old(View())) && ok == Ok(env, old(View()))
    {
      ok := env.outcome(calls);
      calls := calls + 1;
    }

    /** Writes or removes a file. */
    method Write(entry: Entry) returns (ok: bool)
      modifies this`calls, this`files
      ensures (View(), ok) == Set(env, old(View()), entry)
    {
      ok := Attempt();
      if ok {
        files := Put(files, entry);
      }
    }

    method WriteStagingFile(path: Path, content: Content) returns (ok: bool)
      modifies this`calls, this`staging
      ensures (View(), ok) == WriteStaging(env, old(View()), path, content)
    {
      ok := Attempt();
      if ok {
        staging := staging[path := content];
      }
    }

    /** Moves a staging file to its place. */
    method Move(path: Path) returns (ok: bool)
      requires path in staging
      modifies this`calls, this`files, this`staging
      ensures (View(), ok) == Rename(env, old(View()), path)
    {
      ok := Attempt();
      if ok {
        files := files[path := staging[path]];
        staging := staging - {path};
      }
    }
  }

  method StageEntry(fs: FileSystem, entry: Entry, versions: Versions) returns (noted: nat, failure: Failure)
    modifies fs`calls, fs`staging
    ensures Staging(fs.View(), noted, failure) == StageOne(fs.env, old(fs.View()), entry, versions)
  {
    var ok := fs.Attempt();
    if ok {
      ok := fs.Attempt();
    }
    if !ok {
      return 0, CallFailed;
    }
    if !IsAsSeen(fs.files, versions, entry.path) {
      return 0, Mismatch(entry.path);
    }
    if entry.content.Some? {
      ok := fs.Attempt();
      if ok {
        ok := fs.Attempt();
      }
      if ok {
        ok := fs.WriteStagingFile(entry.path, entry.content.value);
      }
    }
    return 1, if ok then NoFailure else CallFailed;
  }

  /** The first loop of `commitStaged`; the backups are the old contents in the order of the entries. */
  method StageAll(fs: FileSystem, staged: seq<Entry>, versions: Versions)
    returns (backups: seq<Entry>, failure: Failure)
    modifies fs`calls, fs`staging
    ensures |backups| <= |staged| && backups == Backups(fs.files, staged, |backups|)
    ensures Staging(fs.View(), |backups|, failure) == StageFrom(fs.env, old(fs.View()), staged, versions, 0)
  {
    backups, failure := [], NoFailure;
    for i := 0 to |staged|
      invariant |backups| == i && backups == Backups(fs.files, staged, i) && failure.NoFailure?
      invariant StageFrom(fs.env, old(fs.View()), staged, versions, 0)
             == StageFrom(fs.env, fs.View(), staged, versions, i)
    {
      var noted;
      noted, failure := StageEntry(fs, staged[i], versions);
      if noted == 1 {
        backups := backups + [BackupOf(fs.files, staged[i])];
      }
      if !failure.NoFailure? {
        return;
      }
    }
  }

  method ApplyEntry(fs: FileSystem, entry: Entry, backup: Entry) returns (ok: bool)
    modifies fs`calls, fs`files, fs`staging
    ensures (fs.View(), ok) == ApplyOne(fs.env, old(fs.View()), entry, backup)
  {
    ok := fs.Attempt();
    if ok {
      ok := fs.Attempt();
    }
    if !ok || BackupOf(fs.files, entry) != backup {
      return false;
    }
    if entry.content.None? {
      if !CanPut(fs.files, entry) {
        ok := fs.Attempt();
        return false;
      }
      ok := fs.Write(entry);
      return;
    }
    if entry.path !in fs.staging {
      return false;
    }
    if fs.env.removesBeforeRename && entry.path in fs.files {
      ok := fs.Write(Entry(entry.path, None));
    }
    if ok {
      ok := fs.Move(entry.path);
    }
  }

  /** The second loop of `commitStaged`. */
  method ApplyAll(fs: FileSystem, staged: seq<Entry>, backups: seq<Entry>) returns (applied: nat)
    requires |backups| == |staged|
    modifies fs`calls, fs`files, fs`staging
    ensures (fs.View(), applied) == ApplyFrom(fs.env, old(fs.View()), staged, backups, 0)
  {
    applied := 0;
    while applied < |staged|
      invariant applied <= |staged|
      invariant ApplyFrom(fs.env, old(fs.View()), staged, backups, 0)
             == ApplyFrom(fs.env, fs.View(), staged, backups, applied)
    {
      var ok := ApplyEntry(fs, staged[applied], backups[applied]);
      if !ok {
        return;
      }
      applied := applied + 1;
    }
  }

  method RemoveStagingFiles(fs: FileSystem, staged: seq<Entry>)
    modifies fs`calls, fs`staging
    ensures fs.View() == RemoveStaging(fs.env, old(fs.View()), staged, 0)
  {
    for i := 0 to |staged|
      invariant RemoveStaging(fs.env, old(fs.View()), staged, 0) == RemoveStaging(fs.env, fs.View(), staged, i)
    {
      if staged[i].path in fs.staging {
        var ok := fs.Attempt();
        if ok {
          fs.staging := fs.staging - {staged[i].path};
        }
      }
    }
  }

  /** `restoreBackups`. */
  method RestoreBackups(fs: FileSystem, backups: seq<Entry>) returns (r: Rollback)
    modifies fs`calls, fs`files
    ensures (fs.View(), r) == RestoreFrom(fs.env, old(fs.View()), backups, NothingRestored)
  {
    r := NothingRestored;
    while r.reached < |backups|
      invariant r.reached <= |backups|
      invariant RestoreFrom(fs.env, old(fs.View()), backups, NothingRestored)
             == RestoreFrom(fs.env, fs.View(), backups, r)
    {
      var resolved := fs.Attempt();
      if !resolved {
        return;
      }
      var backup := backups[r.reached];
      var ok := true;
      if backup.content.Some? {
        ok := fs.Attempt();
      }
      if ok {
        ok := fs.Write(backup);
      }
      r := Rollback(if ok then r.failures else r.failures + {backup.path}, r.reached + 1);
    }
  }

  /** `commitStaged`, and what its caller may rely on. */
  method CommitStaged(fs: FileSystem, staged: seq<Entry>, versions: Versions) returns (outcome: Outcome)
    requires OncePerPath(staged) && fs.staging == map[]
    modifies fs`calls, fs`files, fs`staging
    ensures (fs.View(), outcome) == Commit(fs.env, old(fs.View()), staged, versions)
    ensures IsReady(old(fs.files), staged, versions) && AtMostOneFails(fs.env, old(fs.calls), fs.calls) ==>
              outcome.Committed? || fs.files == old(fs.files)
  {
    ghost var before := fs.View();
    outcome := CommitOrRollBack(fs, staged, versions);
    if IsReady(before.files, staged, versions) && AtMostOneFails(fs.env, before.calls, fs.calls) {
      OneFailureIsHarmless(fs.env, before, staged, versions);
    }
  }

  method CommitOrRollBack(fs: FileSystem, staged: seq<Entry>, versions: Versions) returns (outcome: Outcome)
    modifies fs`calls, fs`files, fs`staging
    ensures (fs.View(), outcome) == Commit(fs.env, old(fs.View()), staged, versions)
  {
    var backups, failure := StageAll(fs, staged, versions);
    if failure.NoFailure? {
      var applied := ApplyAll(fs, staged, backups);
      if applied == |staged| {
        return Committed(backups);
      }
      failure := CallFailed;
    }
    RemoveStagingFiles(fs, staged);
    var r := RestoreBackups(fs, backups);
    outcome := RollbackOutcome(r, backups, failure);
  }

  /** The writing part of `file_ops`, and what its caller may rely on. */
  method RunFileOps(fs: FileSystem, staged: seq<Entry>, versions: Versions, directories: nat) returns (outcome: Outcome)
    requires OncePerPath(staged) && fs.staging == map[]
    modifies fs`calls, fs`files, fs`staging
    ensures (fs.View(), outcome) == FileOps(fs.env, old(fs.View()), staged, versions, directories)
    ensures IsReady(old(fs.files), staged, versions) && AtMostOneFails(fs.env, old(fs.calls), fs.calls) ==>
              outcome.Committed? || fs.files == old(fs.files)
  {
    ghost var before := fs.View();
    outcome := CommitAndMakeDirectories(fs, staged, versions, directories);
    if IsReady(before.files, staged, versions) && AtMostOneFails(fs.env, before.calls, fs.calls) {
      OneFailureIsHarmlessWithDirectories(fs.env, before, staged, versions, directories);
    }
  }

  method CommitAndMakeDirectories(fs: FileSystem, staged: seq<Entry>, versions: Versions, directories: nat)
    returns (outcome: Outcome)
    modifies fs`calls, fs`files, fs`staging
    ensures (fs.View(), outcome) == FileOps(fs.env, old(fs.View()), staged, versions, directories)
  {
    outcome := CommitOrRollBack(fs, staged, versions);
    if !outcome.Committed? {
      return;
    }
    ghost var committed := fs.View();
    var d := 0;
    while d < directories
      invariant d <= directories
      invariant Tries(fs.env, committed, directories) == Tries(fs.env, fs.View(), directories - d)
    {
      var ok := fs.Attempt();
      if !ok {
        var r := RestoreBackups(fs, outcome.backups);
        return RollbackOutcome(r, outcome.backups, CallFailed);
      }
      d := d + 1;
    }
  }
}
