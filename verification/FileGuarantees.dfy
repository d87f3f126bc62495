/** The promises of a file transaction to its caller: all or nothing, and when exactly. */
module FileGuarantees {
  import opened Options
  import opened FileTransaction
  import opened FileRollback

  // ----- staging -----

  lemma StageOneHasCause(env: Env, w: World, entry: Entry, versions: Versions)
    ensures var s := StageOne(env, w, entry, versions);
            && HasCause(env, w, s.world, !s.failure.CallFailed?) && s.world.files == w.files
            && (s.failure.Mismatch? ==> s.failure.path == entry.path && !IsAsSeen(w.files, versions, entry.path))
            && (s.failure.NoFailure? ==> IsAsSeen(w.files, versions, entry.path))
  {
    TriesHaveCause(env, w, 2);
    TriesHaveCause(env, Tries(env, w, 2).0, 2);
  }

  /** Staging changes no file, fails only for a failing call or a changed file, and else has seen every version. */
  lemma {:induction false} StageHasCause(env: Env, w: World, staged: seq<Entry>, versions: Versions, i: nat)
    requires i <= |staged|
    ensures var s := StageFrom(env, w, staged, versions, i);
            && HasCause(env, w, s.world, !s.failure.CallFailed?) && s.world.files == w.files
            && (s.failure.Mismatch? ==> Names(staged, s.failure.path) && !IsAsSeen(w.files, versions, s.failure.path))
            && (s.failure.NoFailure? ==> forall j :: i <= j < |staged| ==> IsAsSeen(w.files, versions, staged[j].path))
    decreases |staged| - i
  {
    if i < |staged| {
      StageOneHasCause(env, w, staged[i], versions);
      var one := StageOne(env, w, staged[i], versions);
      if one.failure.NoFailure? {
        StageHasCause(env, one.world, staged, versions, i + 1);
      }
    }
  }

  /** The new content of an entry waits in a staging file. */
  predicate IsStaged(staging: Files, entry: Entry) {
    entry.content.Some? ==> Lookup(staging, entry.path) == entry.content
  }

  lemma StageOneStages(env: Env, w: World, entry: Entry, versions: Versions)
    ensures var s := StageOne(env, w, entry, versions);
            && (s.world.staging == w.staging || s.world.staging == Put(w.staging, entry))
            && (entry.content.None? ==> s.world.staging == w.staging)
            && (s.failure.NoFailure? ==> IsStaged(s.world.staging, entry))
  {
    TriesHaveCause(env, w, 2);
    TriesHaveCause(env, Tries(env, w, 2).0, 2);
  }

  /** New contents wait for the entries from number `i` up to number `k`, and nothing else does for any entry. */
  predicate Wait(staging: Files, staged: seq<Entry>, i: nat, k: nat)
    requires k <= |staged|
  {
    && (forall j :: i <= j < k ==> IsStaged(staging, staged[j]))
    && (forall j :: 0 <= j < |staged| && staged[j].path in staging ==>
          staged[j].content == Some(staging[staged[j].path]))
  }

  lemma {:induction false} StageStages(env: Env, w: World, staged: seq<Entry>, versions: Versions, i: nat)
    requires i <= |staged| && OncePerPath(staged) && Wait(w.staging, staged, 0, i)
    ensures var s := StageFrom(env, w, staged, versions, i);
            s.failure.NoFailure? ==> Wait(s.world.staging, staged, 0, |staged|)
    decreases |staged| - i
  {
    if i < |staged| {
      StageOneStages(env, w, staged[i], versions);
      var one := StageOne(env, w, staged[i], versions);
      if one.failure.NoFailure? {
        StageStages(env, one.world, staged, versions, i + 1);
      }
    }
  }

  // ----- putting files in place -----

  /** The first `n` entries are in place; the one behind them may be missing where it is removed before a renaming. */
  predicate IsApplied(before: Files, after: Files, staged: seq<Entry>, n: nat) {
    n <= |staged|
    && (after == PutAll(before, staged, n)
        || (n < |staged| && after == PutAll(before, staged, n) - {staged[n].path}))
  }

  lemma ApplyOneApplies(env: Env, w: World, entry: Entry, backup: Entry)
    requires entry.path in w.staging ==> entry.content == Some(w.staging[entry.path])
    ensures var (after, ok) := ApplyOne(env, w, entry, backup);
            && w.calls <= after.calls
            && (ok ==> after.files == Put(w.files, entry))
            && (!ok ==> after.files == w.files || after.files == w.files - {entry.path})
            && (after.staging == w.staging || after.staging == w.staging - {entry.path})
  {
    TriesHaveCause(env, w, 2);
  }

  lemma ApplyOneHasCause(env: Env, w: World, entry: Entry, backup: Entry)
    requires BackupOf(w.files, entry) == backup && CanPut(w.files, entry) && IsStaged(w.staging, entry)
    ensures var (after, ok) := ApplyOne(env, w, entry, backup); HasCause(env, w, after, ok)
  {
    TriesHaveCause(env, w, 2);
  }

  lemma NotYetApplied(files: Files, staged: seq<Entry>, i: nat)
    requires i < |staged| && OncePerPath(staged)
    ensures BackupOf(PutAll(files, staged, i), staged[i]) == BackupOf(files, staged[i])
    ensures CanPut(PutAll(files, staged, i), staged[i]) <==> CanPut(files, staged[i])
  {
    PutAllElsewhere(files, staged, i, staged[i].path);
  }

  lemma StagingUsedUp(before: Files, after: Files, staged: seq<Entry>, i: nat)
    requires OncePerPath(staged) && i < |staged| && Wait(before, staged, i, |staged|)
    requires after == before || after == before - {staged[i].path}
    ensures Wait(after, staged, i + 1, |staged|)
  {
  }

  lemma {:induction false} ApplyApplies(env: Env, before: Files, w: World, staged: seq<Entry>, i: nat)
    requires i <= |staged| && OncePerPath(staged)
    requires w.files == PutAll(before, staged, i) && Wait(w.staging, staged, i, |staged|)
    ensures var (after, n) := ApplyFrom(env, w, staged, Backups(before, staged, |staged|), i);
            IsApplied(before, after.files, staged, n) && w.calls <= after.calls
    decreases |staged| - i
  {
    if i < |staged| {
      var backup := Backups(before, staged, |staged|)[i];
      ApplyOneApplies(env, w, staged[i], backup);
      var (next, ok) := ApplyOne(env, w, staged[i], backup);
      if ok {
        assert next.files == PutAll(before, staged, i + 1);
        StagingUsedUp(w.staging, next.staging, staged, i);
        ApplyApplies(env, before, next, staged, i + 1);
      } else {
        assert IsApplied(before, next.files, staged, i);
      }
    }
  }

  /** When every file to delete exists, only a failing call keeps a file from its place. */
  lemma {:induction false} ApplyHasCause(env: Env, before: Files, w: World, staged: seq<Entry>, i: nat)
    requires i <= |staged| && OncePerPath(staged) && forall j :: 0 <= j < |staged| ==> CanPut(before, staged[j])
    requires w.files == PutAll(before, staged, i) && Wait(w.staging, staged, i, |staged|)
    ensures var (after, n) := ApplyFrom(env, w, staged, Backups(before, staged, |staged|), i);
            HasCause(env, w, after, n == |staged|)
    decreases |staged| - i
  {
    if i < |staged| {
      var next, ok := ApplyOneOfMany(env, before, w, staged, i);
      if ok {
        ApplyHasCause(env, before, next, staged, i + 1);
      }
    }
  }

  lemma ApplyOneOfMany(env: Env, before: Files, w: World, staged: seq<Entry>, i: nat) returns (next: World, ok: bool)
    requires i < |staged| && OncePerPath(staged) && CanPut(before, staged[i])
    requires w.files == PutAll(before, staged, i) && Wait(w.staging, staged, i, |staged|)
    ensures (next, ok) == ApplyOne(env, w, staged[i], Backups(before, staged, |staged|)[i])
    ensures HasCause(env, w, next, ok)
    ensures ok ==> next.files == PutAll(before, staged, i + 1) && Wait(next.staging, staged, i + 1, |staged|)
  {
    var backup := Backups(before, staged, |staged|)[i];
    NotYetApplied(before, staged, i);
    ApplyOneApplies(env, w, staged[i], backup);
    ApplyOneHasCause(env, w, staged[i], backup);
    var applied := ApplyOne(env, w, staged[i], backup);
    next, ok := applied.0, applied.1;
    if ok {
      StagingUsedUp(w.staging, next.staging, staged, i);
    }
  }

  lemma {:induction false} RemoveStagingKeepsFiles(env: Env, w: World, staged: seq<Entry>, i: nat)
    requires i <= |staged|
    ensures var after := RemoveStaging(env, w, staged, i); after.files == w.files && w.calls <= after.calls
    decreases |staged| - i
  {
    if i < |staged| {
      if staged[i].path in w.staging {
        var left := if Ok(env, w) then w.staging - {staged[i].path} else w.staging;
        RemoveStagingKeepsFiles(env, Called(w).(staging := left), staged, i + 1);
      } else {
        RemoveStagingKeepsFiles(env, w, staged, i + 1);
      }
    }
  }

  // ----- the attempt -----

  /** All that the versions and the files have to meet for a transaction to go through. */
  predicate IsReady(files: Files, staged: seq<Entry>, versions: Versions) {
    forall i :: 0 <= i < |staged| ==> IsAsSeen(files, versions, staged[i].path) && CanPut(files, staged[i])
  }

  /** The files after an attempt: the first `applied` entries in place, all of them if nothing failed. */
  lemma AttemptApplies(env: Env, w: World, staged: seq<Entry>, versions: Versions)
    requires OncePerPath(staged) && w.staging == map[]
    ensures var a := Try(env, w, staged, versions);
            && w.calls <= a.world.calls && a.backups == Backups(w.files, staged, |a.backups|)
            && IsApplied(w.files, a.world.files, staged, a.applied)
            && (a.applied <= |a.backups| && (|a.backups| < |staged| ==> a.world.files == w.files))
            && (a.failure.NoFailure? ==> a.applied == |a.backups| == |staged|)
            && (a.failure.Mismatch? ==>
                  && a.world.files == w.files
                  && Names(staged, a.failure.path) && !IsAsSeen(w.files, versions, a.failure.path))
  {
    StageHasCause(env, w, staged, versions, 0);
    StageStages(env, w, staged, versions, 0);
    var s := StageFrom(env, w, staged, versions, 0);
    if s.failure.NoFailure? {
      ApplyApplies(env, w.files, s.world, staged, 0);
    }
  }

  /** When everything is ready, an attempt fails only for a failing call. */
  lemma AttemptHasCause(env: Env, w: World, staged: seq<Entry>, versions: Versions)
    requires OncePerPath(staged) && w.staging == map[] && IsReady(w.files, staged, versions)
    ensures var a := Try(env, w, staged, versions);
            !a.failure.NoFailure? ==> exists n :: w.calls <= n < a.world.calls && !env.outcome(n)
  {
    StageHasCause(env, w, staged, versions, 0);
    StageStages(env, w, staged, versions, 0);
    var s := StageFrom(env, w, staged, versions, 0);
    if s.failure.NoFailure? {
      ApplyHasCause(env, w.files, s.world, staged, 0);
    }
  }

  // ----- what a transaction may replace -----

  /** The file is just as the caller has seen it, and a file to delete is there. */
  predicate MayReplace(files: Files, versions: Versions, entry: Entry) {
    && entry.path in versions
    && match versions[entry.path]
       case None => entry.path !in files && entry.content.Some?
       case Some(seen) => entry.path in files && files[entry.path] == seen
  }

  lemma {:induction false} AppliedCouldBePut(env: Env, before: Files, w: World, staged: seq<Entry>, i: nat, j: nat)
    requires i <= j < |staged| && OncePerPath(staged)
    requires w.files == PutAll(before, staged, i) && Wait(w.staging, staged, i, |staged|)
    ensures j < ApplyFrom(env, w, staged, Backups(before, staged, |staged|), i).1 ==> CanPut(before, staged[j])
    decreases |staged| - i
  {
    var backup := Backups(before, staged, |staged|)[i];
    var (next, ok) := ApplyOne(env, w, staged[i], backup);
    if ok {
      NotYetApplied(before, staged, i);
      ApplyOneApplies(env, w, staged[i], backup);
      StagingUsedUp(w.staging, next.staging, staged, i);
      if i < j {
        assert next.files == PutAll(before, staged, i + 1);
        AppliedCouldBePut(env, before, next, staged, i + 1, j);
      }
    }
  }

  /**
   A transaction goes through only if the caller has seen every file as it is, and a file to delete is there; if it
   has, only a failing call keeps it from going through.
   */
  lemma CommitReplacesOnlySeen(env: Env, w: World, staged: seq<Entry>, versions: Versions)
    requires OncePerPath(staged) && w.staging == map[]
    ensures var (after, outcome) := Commit(env, w, staged, versions);
            var seen := forall i :: 0 <= i < |staged| ==> MayReplace(w.files, versions, staged[i]);
            && (outcome.Committed? ==> seen)
            && (seen && !outcome.Committed? ==>
                  exists n :: w.calls <= n < Try(env, w, staged, versions).world.calls && !env.outcome(n))
  {
    StageHasCause(env, w, staged, versions, 0);
    StageStages(env, w, staged, versions, 0);
    var s := StageFrom(env, w, staged, versions, 0);
    if Try(env, w, staged, versions).failure.NoFailure? {
      forall j | 0 <= j < |staged|
        ensures CanPut(w.files, staged[j])
      {
        AppliedCouldBePut(env, w.files, s.world, staged, 0, j);
      }
    }
    if IsReady(w.files, staged, versions) {
      AttemptHasCause(env, w, staged, versions);
    }
    forall i | 0 <= i < |staged|
      ensures MayReplace(w.files, versions, staged[i]) <==>
              IsAsSeen(w.files, versions, staged[i].path) && CanPut(w.files, staged[i])
    {
    }
  }

  // ----- staging files -----

  lemma {:induction false} RemovedStaysRemoved(env: Env, w: World, staged: seq<Entry>, i: nat, path: Path)
    requires i <= |staged| && path !in w.staging
    ensures path !in RemoveStaging(env, w, staged, i).staging
    decreases |staged| - i
  {
    if i < |staged| {
      if staged[i].path in w.staging {
        var left := if Ok(env, w) then w.staging - {staged[i].path} else w.staging;
        RemovedStaysRemoved(env, Called(w).(staging := left), staged, i + 1, path);
      } else {
        RemovedStaysRemoved(env, w, staged, i + 1, path);
      }
    }
  }

  predicate SomeFails(env: Env, from: nat, to: nat) {
    exists n :: from <= n < to && !env.outcome(n)
  }

  /** A staging file that is left was not removed because a call failed. */
  lemma {:induction false} LeftoverHasCause(env: Env, w: World, staged: seq<Entry>, i: nat, j: nat)
    requires i <= j < |staged|
    ensures var after := RemoveStaging(env, w, staged, i);
            staged[j].path in after.staging ==> SomeFails(env, w.calls, after.calls)
    decreases |staged| - i
  {
    if staged[i].path in w.staging {
      var left := if Ok(env, w) then w.staging - {staged[i].path} else w.staging;
      var next := Called(w).(staging := left);
      RemoveStagingKeepsFiles(env, next, staged, i + 1);
      if i < j {
        LeftoverHasCause(env, next, staged, i + 1, j);
      } else if Ok(env, w) {
        RemovedStaysRemoved(env, next, staged, i + 1, staged[j].path);
      }
    } else if i < j {
      LeftoverHasCause(env, w, staged, i + 1, j);
    } else {
      RemovedStaysRemoved(env, w, staged, i + 1, staged[j].path);
    }
  }

  lemma {:induction false} RestoreKeepsStaging(env: Env, w: World, backups: seq<Entry>, r: Rollback)
    requires r.reached <= |backups|
    ensures RestoreFrom(env, w, backups, r).0.staging == w.staging
    decreases |backups| - r.reached
  {
    if r.reached < |backups| && Ok(env, w) {
      var backup := backups[r.reached];
      var (next, ok) := RestoreOne(env, Called(w), backup);
      TriesHaveCause(env, Called(w), 1);
      RestoreKeepsStaging(env, next, backups,
                          Rollback(if ok then r.failures else r.failures + {backup.path}, r.reached + 1));
    }
  }

  lemma {:induction false} UsedStaysUsed(env: Env, before: Files, w: World, staged: seq<Entry>, i: nat, path: Path)
    requires i <= |staged| && OncePerPath(staged) && path !in w.staging
    requires w.files == PutAll(before, staged, i) && Wait(w.staging, staged, i, |staged|)
    ensures path !in ApplyFrom(env, w, staged, Backups(before, staged, |staged|), i).0.staging
    decreases |staged| - i
  {
    if i < |staged| {
      var backup := Backups(before, staged, |staged|)[i];
      ApplyOneApplies(env, w, staged[i], backup);
      var (next, ok) := ApplyOne(env, w, staged[i], backup);
      if ok {
        assert next.files == PutAll(before, staged, i + 1);
        StagingUsedUp(w.staging, next.staging, staged, i);
        UsedStaysUsed(env, before, next, staged, i + 1, path);
      }
    }
  }

  lemma ApplyOneUsesUp(env: Env, w: World, entry: Entry, backup: Entry)
    requires entry.path in w.staging ==> entry.content == Some(w.staging[entry.path])
    ensures var (after, ok) := ApplyOne(env, w, entry, backup); ok ==> entry.path !in after.staging
  {
    TriesHaveCause(env, w, 2);
  }

  /** A file in its place has used up its staging file. */
  lemma {:induction false} ApplyUsesUp(env: Env, before: Files, w: World, staged: seq<Entry>, i: nat, j: nat)
    requires i <= j < |staged| && OncePerPath(staged)
    requires w.files == PutAll(before, staged, i) && Wait(w.staging, staged, i, |staged|)
    ensures var (after, n) := ApplyFrom(env, w, staged, Backups(before, staged, |staged|), i);
            j < n ==> staged[j].path !in after.staging
    decreases |staged| - i
  {
    var backup := Backups(before, staged, |staged|)[i];
    var (next, ok) := ApplyOne(env, w, staged[i], backup);
    if ok {
      ApplyOneApplies(env, w, staged[i], backup);
      ApplyOneUsesUp(env, w, staged[i], backup);
      StagingUsedUp(w.staging, next.staging, staged, i);
      assert next.files == PutAll(before, staged, i + 1);
      if i < j {
        ApplyUsesUp(env, before, next, staged, i + 1, j);
      } else {
        UsedStaysUsed(env, before, next, staged, i + 1, staged[j].path);
      }
    }
  }

  /** A transaction leaves a staging file only if it failed and removing that file failed as well. */
  lemma CommitLeavesNoStagingFile(env: Env, w: World, staged: seq<Entry>, versions: Versions, i: nat)
    requires OncePerPath(staged) && w.staging == map[] && i < |staged|
    ensures var a := Try(env, w, staged, versions); var (after, outcome) := Commit(env, w, staged, versions);
            staged[i].path in after.staging ==>
              && !outcome.Committed?
              && SomeFails(env, a.world.calls, RollbackStart(env, staged, a).calls)
  {
    var a := Try(env, w, staged, versions);
    if a.failure.NoFailure? {
      StageStages(env, w, staged, versions, 0);
      StageHasCause(env, w, staged, versions, 0);
      ApplyUsesUp(env, w.files, StageFrom(env, w, staged, versions, 0).world, staged, 0, i);
    } else {
      LeftoverHasCause(env, a.world, staged, 0, i);
      RestoreKeepsStaging(env, RollbackStart(env, staged, a), a.backups, NothingRestored);
    }
  }

  // ----- what a failed transaction leaves -----

  lemma BackupsOncePerPath(files: Files, staged: seq<Entry>, n: nat)
    requires OncePerPath(staged) && n <= |staged|
    ensures OncePerPath(Backups(files, staged, n))
    ensures forall path :: Names(Backups(files, staged, n), path) ==> Names(staged, path)
  {
  }

  /** The files before the rollback: changed at most where an entry was, or is about to be, put in place. */
  lemma AppliedAt(before: Files, after: Files, staged: seq<Entry>, n: nat, i: nat)
    requires OncePerPath(staged) && IsApplied(before, after, staged, n) && i < |staged|
    ensures i < n ==> Lookup(after, staged[i].path) == staged[i].content
    ensures n <= i ==> Lookup(after, staged[i].path) in {Lookup(before, staged[i].path), None}
  {
    if i < n {
      PutAllPuts(before, staged, n, i);
    } else {
      PutAllElsewhere(before, staged, n, staged[i].path);
    }
  }

  lemma AppliedElsewhere(before: Files, after: Files, staged: seq<Entry>, n: nat, path: Path)
    requires IsApplied(before, after, staged, n) && !Names(staged, path)
    ensures Lookup(after, path) == Lookup(before, path)
  {
    assert forall i :: 0 <= i < |staged| ==> staged[i].path != path;
    PutAllElsewhere(before, staged, n, path);
  }

  /** A rollback of the first `n` backups from a half-applied world, path by path. */
  lemma RollbackLeaves(env: Env, before: Files, w: World, staged: seq<Entry>, n: nat, applied: nat, i: nat)
    requires OncePerPath(staged) && n <= |staged| && i < |staged|
    requires IsApplied(before, w.files, staged, applied) && applied <= n && (n < |staged| ==> w.files == before)
    ensures var backups := Backups(before, staged, n); var path := staged[i].path;
            var after := RestoreFrom(env, w, backups, NothingRestored).0;
            && (i < n && ComesBack(env, w.calls, backups, i) ==> Lookup(after.files, path) == Lookup(before, path))
            && (!(i < n && ComesBack(env, w.calls, backups, i)) ==> Lookup(after.files, path) == Lookup(w.files, path))
  {
    var backups := Backups(before, staged, n);
    BackupsOncePerPath(before, staged, n);
    RestoreBackupsExactly(env, w, backups, staged[i].path);
    if i < n {
      assert backups[i] == BackupOf(before, staged[i]);
    } else {
      assert !Names(backups, staged[i].path);
    }
  }

  /** A rollback all of whose calls succeed gives every file its old content. */
  lemma SmoothRollbackRestores(env: Env, before: Files, w: World, staged: seq<Entry>, n: nat, applied: nat)
    requires OncePerPath(staged) && n <= |staged|
    requires IsApplied(before, w.files, staged, applied) && applied <= n && (n < |staged| ==> w.files == before)
    requires AllSucceed(env, w.calls, RestoreFrom(env, w, Backups(before, staged, n), NothingRestored).0.calls)
    ensures RestoreFrom(env, w, Backups(before, staged, n), NothingRestored).0.files == before
  {
    var backups := Backups(before, staged, n);
    var (after, r) := RestoreFrom(env, w, backups, NothingRestored);
    BackupsOncePerPath(before, staged, n);
    SmoothRestore(env, w, backups, NothingRestored);
    forall path
      ensures Lookup(after.files, path) == Lookup(before, path)
    {
      RestoreBackupsExactly(env, w, backups, path);
      if Names(staged, path) {
        var i :| 0 <= i < |staged| && staged[i].path == path;
        RollbackLeaves(env, before, w, staged, n, applied, i);
        if i < n {
          FailedExactly(env, w.calls, backups, n, i);
          assert ComesBack(env, w.calls, backups, i);
        }
      } else {
        AppliedElsewhere(before, w.files, staged, applied, path);
      }
    }
    SameEverywhere(after.files, before);
  }

  // ----- the transaction -----

  /** The parts of a failed commit: where the rollback started, and how it ended. */
  lemma CommitRollsBack(env: Env, w: World, staged: seq<Entry>, versions: Versions)
    requires OncePerPath(staged) && w.staging == map[] && !Try(env, w, staged, versions).failure.NoFailure?
    ensures var a := Try(env, w, staged, versions); var start := RollbackStart(env, staged, a);
            var (after, r) := RestoreFrom(env, start, a.backups, NothingRestored);
            && Commit(env, w, staged, versions) == (after, RollbackOutcome(r, a.backups, a.failure))
            && w.calls <= a.world.calls <= start.calls <= after.calls
            && a.backups == Backups(w.files, staged, |a.backups|) && a.applied <= |a.backups|
            && start.files == a.world.files && IsApplied(w.files, start.files, staged, a.applied)
            && (|a.backups| < |staged| || a.failure.Mismatch? ==> start.files == w.files)
  {
    var a := Try(env, w, staged, versions);
    AttemptApplies(env, w, staged, versions);
    RemoveStagingKeepsFiles(env, a.world, staged, 0);
    RestoreTakesTime(env, RollbackStart(env, staged, a), a.backups, NothingRestored);
  }

  /** Which calls the report of a failed commit stands for. */
  lemma CommitReports(env: Env, w: World, staged: seq<Entry>, versions: Versions)
    requires OncePerPath(staged) && w.staging == map[]
    ensures var a := Try(env, w, staged, versions); var start := RollbackStart(env, staged, a).calls;
            match Commit(env, w, staged, versions).1
            case Committed(backups) => a.failure.NoFailure? && backups == Backups(w.files, staged, |staged|)
            case VersionMismatch(path) =>
              a.failure == Mismatch(path) && ResolvesUpTo(env, start, a.backups, |a.backups|)
            case ApplyFailed(failures) => IsReport(env, start, a.backups, Rollback(failures, |a.backups|))
            case RollbackStopped(r) => IsReport(env, start, a.backups, r) && r.reached < |a.backups|
  {
    var a := Try(env, w, staged, versions);
    AttemptApplies(env, w, staged, versions);
    if !a.failure.NoFailure? {
      BackupsOncePerPath(w.files, staged, |a.backups|);
      RestoreReports(env, RollbackStart(env, staged, a).calls, RollbackStart(env, staged, a), a.backups,
                     NothingRestored);
    }
  }

  /** When the rollback starts, a path holds its new content, is missing, or is as it was, by its place in the list. */
  lemma AttemptLeaves(env: Env, w: World, staged: seq<Entry>, versions: Versions, i: nat)
    requires OncePerPath(staged) && w.staging == map[] && i < |staged|
    ensures var a := Try(env, w, staged, versions); var path := staged[i].path;
            && (i < a.applied ==> Lookup(a.world.files, path) == staged[i].content)
            && (i == a.applied ==> Lookup(a.world.files, path) in {Lookup(w.files, path), None})
            && (a.applied < i ==> Lookup(a.world.files, path) == Lookup(w.files, path))
  {
    var a := Try(env, w, staged, versions);
    AttemptApplies(env, w, staged, versions);
    AppliedAt(w.files, a.world.files, staged, a.applied, i);
    if a.applied < i {
      PutAllElsewhere(w.files, staged, a.applied, staged[i].path);
    }
  }

  /** The path is as it was when the rollback starts, or its own part of the rollback succeeds. */
  predicate IsRestored(env: Env, before: Files, start: World, backups: seq<Entry>, staged: seq<Entry>, i: nat)
    requires i < |staged|
  {
    || Lookup(start.files, staged[i].path) == Lookup(before, staged[i].path)
    || (i < |backups| && ComesBack(env, start.calls, backups, i))
  }

  /**
   After a failed commit a path of the transaction holds its old content if and only if it is as it was when the
   rollback starts, or every path up to it is resolved and its own calls succeed in the rollback.
   */
  lemma StagedPathComesBackExactlyWhen(env: Env, w: World, staged: seq<Entry>, versions: Versions, i: nat)
    requires OncePerPath(staged) && w.staging == map[] && !Commit(env, w, staged, versions).1.Committed?
    requires i < |staged|
    ensures var a := Try(env, w, staged, versions); var after := Commit(env, w, staged, versions).0;
            Lookup(after.files, staged[i].path) == Lookup(w.files, staged[i].path) <==>
              IsRestored(env, w.files, RollbackStart(env, staged, a), a.backups, staged, i)
  {
    var a := Try(env, w, staged, versions);
    CommitRollsBack(env, w, staged, versions);
    RollbackLeaves(env, w.files, RollbackStart(env, staged, a), staged, |a.backups|, a.applied, i);
  }

  /** A path that had been put in place comes back if and only if its calls succeed, or its content was not new. */
  lemma CommittedPathComesBackExactlyWhen(env: Env, w: World, staged: seq<Entry>, versions: Versions, i: nat)
    requires OncePerPath(staged) && w.staging == map[] && !Commit(env, w, staged, versions).1.Committed?
    requires i < Try(env, w, staged, versions).applied
    ensures var a := Try(env, w, staged, versions); var after := Commit(env, w, staged, versions).0;
            i < |a.backups| &&
            (Lookup(after.files, staged[i].path) == Lookup(w.files, staged[i].path) <==>
              ComesBack(env, RollbackStart(env, staged, a).calls, a.backups, i)
              || staged[i].content == Lookup(w.files, staged[i].path))
  {
    CommitRollsBack(env, w, staged, versions);
    AttemptLeaves(env, w, staged, versions, i);
    StagedPathComesBackExactlyWhen(env, w, staged, versions, i);
  }

  /** A failed commit leaves all files as they were if and only if this is so for every path of the transaction. */
  lemma FailedCommitRestoresExactlyWhen(env: Env, w: World, staged: seq<Entry>, versions: Versions)
    requires OncePerPath(staged) && w.staging == map[] && !Commit(env, w, staged, versions).1.Committed?
    ensures var a := Try(env, w, staged, versions);
            Commit(env, w, staged, versions).0.files == w.files <==>
              forall i :: 0 <= i < |staged| ==>
                IsRestored(env, w.files, RollbackStart(env, staged, a), a.backups, staged, i)
  {
    var a, after := Try(env, w, staged, versions), Commit(env, w, staged, versions).0;
    forall i | 0 <= i < |staged|
      ensures Lookup(after.files, staged[i].path) == Lookup(w.files, staged[i].path) <==>
                IsRestored(env, w.files, RollbackStart(env, staged, a), a.backups, staged, i)
    {
      StagedPathComesBackExactlyWhen(env, w, staged, versions, i);
    }
    if forall i :: 0 <= i < |staged| ==> IsRestored(env, w.files, RollbackStart(env, staged, a), a.backups, staged, i) {
      forall path
        ensures Lookup(after.files, path) == Lookup(w.files, path)
      {
        CommitLeavesNothingForeign(env, w, staged, versions, path);
      }
      SameEverywhere(after.files, w.files);
    }
  }

  /** Paths that are not part of the transaction never change, and no path of it ends up with foreign content. */
  lemma CommitLeavesNothingForeign(env: Env, w: World, staged: seq<Entry>, versions: Versions, path: Path)
    requires OncePerPath(staged) && w.staging == map[]
    ensures var after := Commit(env, w, staged, versions).0;
            && (!Names(staged, path) ==> Lookup(after.files, path) == Lookup(w.files, path))
            && (forall i :: 0 <= i < |staged| && staged[i].path == path ==>
                  Lookup(after.files, path) in {Lookup(w.files, path), staged[i].content, None})
  {
    var a := Try(env, w, staged, versions);
    AttemptApplies(env, w, staged, versions);
    if a.failure.NoFailure? {
      LeavesAt(w.files, a.world.files, staged, a.applied, path);
    } else {
      CommitRollsBack(env, w, staged, versions);
      var start := RollbackStart(env, staged, a);
      LeavesAt(w.files, start.files, staged, a.applied, path);
      RollbackLeavesNothingForeign(env, w.files, start, staged, |a.backups|, a.applied, path);
    }
  }

  lemma LeavesAt(before: Files, after: Files, staged: seq<Entry>, n: nat, path: Path)
    requires OncePerPath(staged) && IsApplied(before, after, staged, n)
    ensures !Names(staged, path) ==> Lookup(after, path) == Lookup(before, path)
    ensures forall i :: 0 <= i < |staged| && staged[i].path == path ==>
              Lookup(after, path) in {Lookup(before, path), staged[i].content, None}
  {
    if Names(staged, path) {
      var i :| 0 <= i < |staged| && staged[i].path == path;
      AppliedAt(before, after, staged, n, i);
    } else {
      AppliedElsewhere(before, after, staged, n, path);
    }
  }

  lemma RollbackLeavesNothingForeign(env: Env, before: Files, w: World, staged: seq<Entry>, n: nat, applied: nat,
                                     path: Path)
    requires OncePerPath(staged) && n <= |staged|
    requires IsApplied(before, w.files, staged, applied) && applied <= n && (n < |staged| ==> w.files == before)
    ensures var after := RestoreFrom(env, w, Backups(before, staged, n), NothingRestored).0;
            && (!Names(staged, path) ==> Lookup(after.files, path) == Lookup(before, path))
            && (forall i :: 0 <= i < |staged| && staged[i].path == path ==>
                  Lookup(after.files, path) in {Lookup(before, path), staged[i].content, None})
  {
    LeavesAt(before, w.files, staged, applied, path);
    if Names(staged, path) {
      var i :| 0 <= i < |staged| && staged[i].path == path;
      RollbackLeaves(env, before, w, staged, n, applied, i);
    } else {
      BackupsOncePerPath(before, staged, n);
      RestoreBackupsExactly(env, w, Backups(before, staged, n), path);
    }
  }

  // ----- all or nothing -----

  /**
   A commit puts every new content in place; when it fails and no call of its rollback does, or when it
   stopped at a changed file, no file has changed at all.
   */
  lemma CommitIsAllOrNothing(env: Env, w: World, staged: seq<Entry>, versions: Versions)
    requires OncePerPath(staged) && w.staging == map[]
    ensures var a := Try(env, w, staged, versions); var (after, outcome) := Commit(env, w, staged, versions);
            if outcome.Committed? then
              forall i :: 0 <= i < |staged| ==> Lookup(after.files, staged[i].path) == staged[i].content
            else
              (AllSucceed(env, RollbackStart(env, staged, a).calls, after.calls) || outcome.VersionMismatch?
               || |a.backups| < |staged|) ==> after.files == w.files
  {
    var a := Try(env, w, staged, versions);
    AttemptApplies(env, w, staged, versions);
    if a.failure.NoFailure? {
      forall i | 0 <= i < |staged|
        ensures Lookup(a.world.files, staged[i].path) == staged[i].content
      {
        PutAllPuts(w.files, staged, |staged|, i);
      }
    } else {
      CommitRollsBack(env, w, staged, versions);
      var start := RollbackStart(env, staged, a);
      if AllSucceed(env, start.calls, Commit(env, w, staged, versions).0.calls) {
        SmoothRollbackRestores(env, w.files, start, staged, |a.backups|, a.applied);
      }
      if start.files == w.files {
        UnchangedStaysUnchanged(env, start, staged, |a.backups|);
      }
    }
  }

  /** Writing backups over files that have not changed changes nothing, however it goes. */
  lemma UnchangedStaysUnchanged(env: Env, w: World, staged: seq<Entry>, n: nat)
    requires OncePerPath(staged) && n <= |staged|
    ensures RestoreFrom(env, w, Backups(w.files, staged, n), NothingRestored).0.files == w.files
  {
    var backups := Backups(w.files, staged, n);
    var after := RestoreFrom(env, w, backups, NothingRestored).0;
    BackupsOncePerPath(w.files, staged, n);
    forall path
      ensures Lookup(after.files, path) == Lookup(w.files, path)
    {
      RestoreBackupsExactly(env, w, backups, path);
      if Names(backups, path) {
        var i :| 0 <= i < |backups| && backups[i].path == path;
        assert backups[i] == BackupOf(w.files, staged[i]);
      }
    }
    SameEverywhere(after.files, w.files);
  }

  /**
   To a caller: if the versions and files are as they have to be, one failing call, wherever it happens,
   leaves either the whole transaction or nothing of it, and without a failing call it goes through.
   */
  lemma OneFailureIsHarmless(env: Env, w: World, staged: seq<Entry>, versions: Versions)
    requires OncePerPath(staged) && w.staging == map[] && IsReady(w.files, staged, versions)
    requires AtMostOneFails(env, w.calls, Commit(env, w, staged, versions).0.calls)
    ensures var (after, outcome) := Commit(env, w, staged, versions);
            && (outcome.Committed? || after.files == w.files)
            && (AllSucceed(env, w.calls, after.calls) ==> outcome.Committed?)
  {
    var a := Try(env, w, staged, versions);
    AttemptHasCause(env, w, staged, versions);
    CommitIsAllOrNothing(env, w, staged, versions);
    if !a.failure.NoFailure? {
      CommitRollsBack(env, w, staged, versions);
      var n :| w.calls <= n < a.world.calls && !env.outcome(n);
      assert n < Commit(env, w, staged, versions).0.calls;
      assert AllSucceed(env, RollbackStart(env, staged, a).calls, Commit(env, w, staged, versions).0.calls);
    }
  }

  // ----- with directories -----

  /** The world in which the rollback after a failed directory starts. */
  function AfterDirectories(env: Env, w: World, staged: seq<Entry>, versions: Versions, directories: nat): World {
    Tries(env, Commit(env, w, staged, versions).0, directories).0
  }

  lemma DirectoriesRollBack(env: Env, w: World, staged: seq<Entry>, versions: Versions, directories: nat)
    requires OncePerPath(staged) && w.staging == map[] && Commit(env, w, staged, versions).1.Committed?
    ensures var made := AfterDirectories(env, w, staged, versions, directories);
            var backups := Backups(w.files, staged, |staged|);
            && w.calls <= Commit(env, w, staged, versions).0.calls <= made.calls
            && IsApplied(w.files, made.files, staged, |staged|)
            && (Tries(env, Commit(env, w, staged, versions).0, directories).1 ==>
                  FileOps(env, w, staged, versions, directories) == (made, Committed(backups)))
            && (!Tries(env, Commit(env, w, staged, versions).0, directories).1 ==>
                  && w.calls < made.calls && !env.outcome(made.calls - 1)
                  && FileOps(env, w, staged, versions, directories).0
                     == RestoreFrom(env, made, backups, NothingRestored).0
                  && !FileOps(env, w, staged, versions, directories).1.Committed?)
  {
    AttemptApplies(env, w, staged, versions);
    TriesHaveCause(env, Commit(env, w, staged, versions).0, directories);
  }

  /** After a failed directory every staged path is put back if and only if its own part of the rollback succeeds. */
  lemma DirectoryFailureRestoresExactlyWhen(env: Env, w: World, staged: seq<Entry>, versions: Versions,
                                            directories: nat, i: nat)
    requires OncePerPath(staged) && w.staging == map[] && Commit(env, w, staged, versions).1.Committed?
    requires !FileOps(env, w, staged, versions, directories).1.Committed? && i < |staged|
    ensures var after := FileOps(env, w, staged, versions, directories).0;
            var start := AfterDirectories(env, w, staged, versions, directories).calls;
            Lookup(after.files, staged[i].path) == Lookup(w.files, staged[i].path) <==>
              ComesBack(env, start, Backups(w.files, staged, |staged|), i)
              || staged[i].content == Lookup(w.files, staged[i].path)
  {
    var made := AfterDirectories(env, w, staged, versions, directories);
    DirectoriesRollBack(env, w, staged, versions, directories);
    RollbackLeaves(env, w.files, made, staged, |staged|, |staged|, i);
    AppliedAt(w.files, made.files, staged, |staged|, i);
  }

  /** After a failed directory all files are as they were if and only if this is so for every staged path. */
  lemma FailedDirectoryRestoresExactlyWhen(env: Env, w: World, staged: seq<Entry>, versions: Versions,
                                           directories: nat)
    requires OncePerPath(staged) && w.staging == map[] && Commit(env, w, staged, versions).1.Committed?
    requires !FileOps(env, w, staged, versions, directories).1.Committed?
    ensures var made := AfterDirectories(env, w, staged, versions, directories);
            FileOps(env, w, staged, versions, directories).0.files == w.files <==>
              forall i :: 0 <= i < |staged| ==>
                IsRestored(env, w.files, made, Backups(w.files, staged, |staged|), staged, i)
  {
    var made, backups := AfterDirectories(env, w, staged, versions, directories), Backups(w.files, staged, |staged|);
    var after := FileOps(env, w, staged, versions, directories).0;
    DirectoriesRollBack(env, w, staged, versions, directories);
    forall i | 0 <= i < |staged|
      ensures Lookup(after.files, staged[i].path) == Lookup(w.files, staged[i].path) <==>
                IsRestored(env, w.files, made, backups, staged, i)
    {
      RollbackLeaves(env, w.files, made, staged, |staged|, |staged|, i);
    }
    if forall i :: 0 <= i < |staged| ==> IsRestored(env, w.files, made, backups, staged, i) {
      forall path
        ensures Lookup(after.files, path) == Lookup(w.files, path)
      {
        RollbackLeavesNothingForeign(env, w.files, made, staged, |staged|, |staged|, path);
      }
      SameEverywhere(after.files, w.files);
    }
  }

  /** The same promise with directories: one failing call, also one that makes a directory, leaves all or nothing. */
  lemma OneFailureIsHarmlessWithDirectories(env: Env, w: World, staged: seq<Entry>, versions: Versions,
                                            directories: nat)
    requires OncePerPath(staged) && w.staging == map[] && IsReady(w.files, staged, versions)
    requires AtMostOneFails(env, w.calls, FileOps(env, w, staged, versions, directories).0.calls)
    ensures var (after, outcome) := FileOps(env, w, staged, versions, directories);
            outcome.Committed? || after.files == w.files
  {
    if Commit(env, w, staged, versions).1.Committed? {
      DirectoriesRollBack(env, w, staged, versions, directories);
      var (made, ok) := Tries(env, Commit(env, w, staged, versions).0, directories);
      if !ok {
        RestoreTakesTime(env, made, Backups(w.files, staged, |staged|), NothingRestored);
        var after := RestoreFrom(env, made, Backups(w.files, staged, |staged|), NothingRestored).0;
        assert AllSucceed(env, made.calls, after.calls);
        SmoothRollbackRestores(env, w.files, made, staged, |staged|, |staged|);
      }
    } else {
      OneFailureIsHarmless(env, w, staged, versions);
    }
  }

  // ----- the input that shows where the promise ends -----

  /**
   A directory fails and so does resolving the path in the rollback: the new content stays although no
   write of the rollback failed.
   */
  lemma UnresolvedPathKeepsNewContent()
    ensures var file := Path("f"); var before := map[file := "old"];
            var staged := [Entry(file, Some("new"))]; var versions := map[file := Some("old")];
            var env := Env(n => n != 8 && n != 9, false);
            var (after, outcome) := FileOps(env, World(before, map[], 0), staged, versions, 1);
            && IsReady(before, staged, versions)
            && after.files == map[file := "new"] && outcome == RollbackStopped(Rollback({}, 0))
  {
    var file := Path("f");
    var staged, versions := [Entry(file, Some("new"))], map[file := Some("old")];
    var env := Env(n => n != 8 && n != 9, false);
    var w := World(map[file := "old"], map[], 0);
    var waiting := World(w.files, map[file := "new"], 5);
    assert Tries(env, w, 2) == (World(w.files, map[], 2), true);
    assert Tries(env, World(w.files, map[], 2), 2) == (World(w.files, map[], 4), true);
    assert StageOne(env, w, staged[0], versions) == Staging(waiting, 1, NoFailure);
    assert StageFrom(env, w, staged, versions, 0) == Staging(waiting, 1, NoFailure);
    var backups := Backups(w.files, staged, 1);
    assert backups == [Entry(file, Some("old"))];
    var applied := World(map[file := "new"], map[], 8);
    assert Tries(env, waiting, 2) == (waiting.(calls := 7), true);
    assert BackupOf(w.files, staged[0]) == backups[0];
    assert w.files[file := "new"] == applied.files && waiting.staging - {file} == map[];
    assert Rename(env, waiting.(calls := 7), file) == (applied, true);
    assert ApplyOne(env, waiting, staged[0], backups[0]) == (applied, true);
    assert ApplyFrom(env, waiting, staged, backups, 0) == (applied, 1);
    assert Commit(env, w, staged, versions) == (applied, Committed(backups));
    assert Tries(env, applied, 1) == (applied.(calls := 9), false);
    assert RestoreFrom(env, applied.(calls := 9), backups, NothingRestored) == (applied.(calls := 10), NothingRestored);
  }
}
