/**
 Committing staged files as one transaction: stage everything beside its target, put it in place file by
 file, and write the backups back when any call fails. Every step is a function of the files and of how
 the calls to the file system turn out.
 */
module FileTransaction {
  import opened Options

  datatype Path = Path(name: string)
  type Content = string

  /** What a path is to become; nothing stands for a deleted file. */
  datatype Entry = Entry(path: Path, content: Option<Content>)

  type Files = map<Path, Content>

  function Lookup(files: Files, path: Path): Option<Content> {
    if path in files then Some(files[path]) else None
  }

  function Put(files: Files, entry: Entry): Files {
    if entry.content.Some? then files[entry.path := entry.content.value] else files - {entry.path}
  }

  /** The first `n` entries in place. */
  function PutAll(files: Files, entries: seq<Entry>, n: nat): Files
    requires n <= |entries|
  {
    if n == 0 then files else Put(PutAll(files, entries, n - 1), entries[n - 1])
  }

  /** The entries come from a map, so no path occurs twice. */
  predicate OncePerPath(entries: seq<Entry>) {
    forall i, j :: 0 <= i < j < |entries| ==> entries[i].path != entries[j].path
  }

  predicate Names(entries: seq<Entry>, path: Path) {
    exists i :: 0 <= i < |entries| && entries[i].path == path
  }

  // ----- calls to the file system -----

  /**
   How every call to the file system turns out, by its number: it succeeds, or it fails without effect.
   On some platforms a target is removed before a file is renamed to it.
   */
  datatype Env = Env(outcome: nat -> bool, removesBeforeRename: bool)

  /** The files, the staging files of this transaction by the path they are for, and the calls made so far. */
  datatype World = World(files: Files, staging: Files, calls: nat)

  function Ok(env: Env, w: World): bool {
    env.outcome(w.calls)
  }

  function Called(w: World): World {
    w.(calls := w.calls + 1)
  }

  /**
   Up to `n` calls that change no file, as resolving a path, reading, or creating a directory; the first
   failure ends them.
   */
  function Tries(env: Env, w: World, n: nat): (World, bool)
    decreases n
  {
    if n == 0 then (w, true) else if !Ok(env, w) then (Called(w), false) else Tries(env, Called(w), n - 1)
  }

  /** Writes or removes a file. */
  function Set(env: Env, w: World, entry: Entry): (World, bool) {
    if Ok(env, w) then (Called(w).(files := Put(w.files, entry)), true) else (Called(w), false)
  }

  function WriteStaging(env: Env, w: World, path: Path, content: Content): (World, bool) {
    if Ok(env, w) then (Called(w).(staging := w.staging[path := content]), true) else (Called(w), false)
  }

  /** Moves a staging file to its place. */
  function Rename(env: Env, w: World, path: Path): (World, bool)
    requires path in w.staging
  {
    if Ok(env, w)
    then (Called(w).(files := w.files[path := w.staging[path]], staging := w.staging - {path}), true)
    else (Called(w), false)
  }

  // ----- staging -----

  /** The contents the caller has seen; nothing stands for a missing file. */
  type Versions = map<Path, Option<Content>>

  predicate IsAsSeen(files: Files, versions: Versions, path: Path) {
    path in versions && versions[path] == Lookup(files, path)
  }

  function BackupOf(files: Files, entry: Entry): Entry {
    Entry(entry.path, Lookup(files, entry.path))
  }

  /** The old contents of the first `n` entries. */
  function Backups(files: Files, staged: seq<Entry>, n: nat): (backups: seq<Entry>)
    requires n <= |staged|
    ensures |backups| == n && forall i :: 0 <= i < n ==> backups[i].path == staged[i].path
  {
    seq(n, i requires 0 <= i < n => BackupOf(files, staged[i]))
  }

  datatype Failure = NoFailure | CallFailed | Mismatch(path: Path)

  /** The world after a part of the staging, the number of backups noted, and what went wrong. */
  datatype Staging = Staging(world: World, noted: nat, failure: Failure)

  /** Resolves and reads the target, checks its version, notes the backup, and writes the staging file. */
  function StageOne(env: Env, w: World, entry: Entry, versions: Versions): Staging {
    var (read, seen) := Tries(env, w, 2);
    if !seen then Staging(read, 0, CallFailed)
    else if !IsAsSeen(w.files, versions, entry.path) then Staging(read, 0, Mismatch(entry.path))
    else if entry.content.None? then Staging(read, 1, NoFailure)
    else
      var (made, found) := Tries(env, read, 2);
      if !found then Staging(made, 1, CallFailed)
      else
        var (written, ok) := WriteStaging(env, made, entry.path, entry.content.value);
        Staging(written, 1, if ok then NoFailure else CallFailed)
  }

  /** The entries from number `i` on, up to the first failure. */
  function StageFrom(env: Env, w: World, staged: seq<Entry>, versions: Versions, i: nat): (s: Staging)
    requires i <= |staged|
    ensures s.noted <= |staged| && (s.failure.NoFailure? ==> s.noted == |staged|)
    decreases |staged| - i
  {
    if i == |staged| then Staging(w, i, NoFailure)
    else
      var one := StageOne(env, w, staged[i], versions);
      if !one.failure.NoFailure? then Staging(one.world, i + one.noted, one.failure)
      else StageFrom(env, one.world, staged, versions, i + 1)
  }

  // ----- putting files in place -----

  /** A file to delete has to exist. */
  predicate CanPut(files: Files, entry: Entry) {
    entry.content.None? ==> entry.path in files
  }

  /** One file put in place, if it is still the one that was backed up. */
  function ApplyOne(env: Env, w: World, entry: Entry, backup: Entry): (World, bool) {
    var (read, seen) := Tries(env, w, 2);
    if !seen || BackupOf(w.files, entry) != backup then (read, false)
    else if entry.content.None? then
      if CanPut(w.files, entry) then Set(env, read, entry) else (Called(read), false)
    else if entry.path !in w.staging then (read, false)
    else
      var (cleared, ok) := if env.removesBeforeRename && entry.path in w.files
                           then Set(env, read, Entry(entry.path, None)) else (read, true);
      if ok then Rename(env, cleared, entry.path) else (cleared, false)
  }

  /** The entries from number `i` on, up to the first failure; the number is how many are in place. */
  function ApplyFrom(env: Env, w: World, staged: seq<Entry>, backups: seq<Entry>, i: nat): (result: (World, nat))
    requires i <= |staged| == |backups|
    ensures i <= result.1 <= |staged|
    decreases |staged| - i
  {
    if i == |staged| then (w, i)
    else
      var (next, ok) := ApplyOne(env, w, staged[i], backups[i]);
      if ok then ApplyFrom(env, next, staged, backups, i + 1) else (next, i)
  }

  // ----- rolling back -----

  /** The staging files that are left are removed; a failure is ignored. */
  function RemoveStaging(env: Env, w: World, staged: seq<Entry>, i: nat): World
    requires i <= |staged|
    decreases |staged| - i
  {
    if i == |staged| then w
    else if staged[i].path !in w.staging then RemoveStaging(env, w, staged, i + 1)
    else
      var left := if Ok(env, w) then w.staging - {staged[i].path} else w.staging;
      RemoveStaging(env, Called(w).(staging := left), staged, i + 1)
  }

  /** How the rollback went: the paths that could not be written, and how many backups were reached at all. */
  datatype Rollback = Rollback(failures: set<Path>, reached: nat)

  /** A backup is written back in a directory that is made again where needed; a missing file is removed again. */
  function RestoreOne(env: Env, w: World, backup: Entry): (World, bool) {
    var (made, ok) := if backup.content.Some? then Tries(env, w, 1) else (w, true);
    if ok then Set(env, made, backup) else (made, false)
  }

  /**
   `restoreBackups`: a backup that cannot be written is reported and the next one is tried; resolving a
   path is not guarded, so when that fails the rest of the backups is not reached.
   */
  function RestoreFrom(env: Env, w: World, backups: seq<Entry>, r: Rollback): (result: (World, Rollback))
    requires r.reached <= |backups|
    ensures result.1.reached <= |backups|
    decreases |backups| - r.reached
  {
    if r.reached == |backups| then (w, r)
    else if !Ok(env, w) then (Called(w), r)
    else
      var backup := backups[r.reached];
      var (next, ok) := RestoreOne(env, Called(w), backup);
      RestoreFrom(env, next, backups, Rollback(if ok then r.failures else r.failures + {backup.path}, r.reached + 1))
  }

  const NothingRestored := Rollback({}, 0)

  // ----- the transaction -----

  datatype Outcome =
    | Committed(backups: seq<Entry>)
    | VersionMismatch(path: Path)
    | ApplyFailed(failures: set<Path>)
    | RollbackStopped(rollback: Rollback)

  /** When the rollback has reached every backup, the transaction is reported as failed. */
  function RollbackOutcome(r: Rollback, backups: seq<Entry>, failure: Failure): Outcome {
    if r.reached < |backups| then RollbackStopped(r)
    else if failure.Mismatch? then VersionMismatch(failure.path)
    else ApplyFailed(r.failures)
  }

  /** Where a transaction stands when it has either put everything in place or has to be rolled back. */
  datatype Attempt = Attempt(world: World, backups: seq<Entry>, applied: nat, failure: Failure)

  function Try(env: Env, w: World, staged: seq<Entry>, versions: Versions): (attempt: Attempt)
    ensures attempt.applied <= |staged| && |attempt.backups| <= |staged|
  {
    var s := StageFrom(env, w, staged, versions, 0);
    var backups := Backups(w.files, staged, s.noted);
    if !s.failure.NoFailure? then Attempt(s.world, backups, 0, s.failure)
    else
      var (applied, n) := ApplyFrom(env, s.world, staged, backups, 0);
      Attempt(applied, backups, n, if n == |staged| then NoFailure else CallFailed)
  }

  /** The world in which the first backup is about to be written back. */
  function RollbackStart(env: Env, staged: seq<Entry>, attempt: Attempt): World {
    RemoveStaging(env, attempt.world, staged, 0)
  }

  /** `commitStaged`. */
  function Commit(env: Env, w: World, staged: seq<Entry>, versions: Versions): (World, Outcome) {
    var attempt := Try(env, w, staged, versions);
    if attempt.failure.NoFailure? then (attempt.world, Committed(attempt.backups))
    else
      var (after, r) := RestoreFrom(env, RollbackStart(env, staged, attempt), attempt.backups, NothingRestored);
      (after, RollbackOutcome(r, attempt.backups, attempt.failure))
  }

  /** The writing part of `file_ops`: the staged files, then the directories; one that fails undoes the files. */
  function FileOps(env: Env, w: World, staged: seq<Entry>, versions: Versions, directories: nat): (World, Outcome) {
    var (committed, outcome) := Commit(env, w, staged, versions);
    if !outcome.Committed? then (committed, outcome)
    else
      var (made, ok) := Tries(env, committed, directories);
      if ok then (made, outcome)
      else
        var (after, r) := RestoreFrom(env, made, outcome.backups, NothingRestored);
        (after, RollbackOutcome(r, outcome.backups, CallFailed))
  }
}
