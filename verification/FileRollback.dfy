/** What a transaction leaves behind, in terms of which calls to the file system failed. */
module FileRollback {
  import opened Options
  import opened FileTransaction

  // ----- files path by path -----

  lemma {:induction false} PutAllElsewhere(files: Files, entries: seq<Entry>, n: nat, path: Path)
    requires n <= |entries| && forall i :: 0 <= i < n ==> entries[i].path != path
    ensures Lookup(PutAll(files, entries, n), path) == Lookup(files, path)
  {
    if 0 < n {
      PutAllElsewhere(files, entries, n - 1, path);
    }
  }

  /** Every entry is what its path ends up with. */
  lemma {:induction false} PutAllPuts(files: Files, entries: seq<Entry>, n: nat, i: nat)
    requires i < n <= |entries| && OncePerPath(entries)
    ensures Lookup(PutAll(files, entries, n), entries[i].path) == entries[i].content
  {
    if i < n - 1 {
      PutAllPuts(files, entries, n - 1, i);
    }
  }

  lemma SameEverywhere(a: Files, b: Files)
    requires forall path :: Lookup(a, path) == Lookup(b, path)
    ensures a == b
  {
    forall path
      ensures path in a <==> path in b
    {
      assert Lookup(a, path) == Lookup(b, path);
    }
    forall path | path in a
      ensures a[path] == b[path]
    {
      assert Lookup(a, path) == Lookup(b, path);
    }
  }

  // ----- calls that fail -----

  /** The calls from number `from` up to but not including `to` all succeed. */
  predicate AllSucceed(env: Env, from: nat, to: nat) {
    forall n :: from <= n < to ==> env.outcome(n)
  }

  predicate AtMostOneFails(env: Env, from: nat, to: nat) {
    forall m, n :: from <= m < n < to ==> env.outcome(m) || env.outcome(n)
  }

  /** Time passes, and a step that failed has made a call that failed. */
  ghost predicate HasCause(env: Env, before: World, after: World, ok: bool) {
    before.calls <= after.calls && (!ok ==> before.calls < after.calls && !env.outcome(after.calls - 1))
  }

  lemma {:induction false} TriesHaveCause(env: Env, w: World, n: nat)
    ensures var (after, ok) := Tries(env, w, n);
            HasCause(env, w, after, ok) && after.files == w.files && after.staging == w.staging
    decreases n
  {
    if n != 0 && Ok(env, w) {
      TriesHaveCause(env, Called(w), n - 1);
    }
  }

  // ----- the rollback, backup by backup -----

  /** How many calls a backup takes once its path has been resolved, the resolving included. */
  function CallsOf(env: Env, first: nat, backup: Entry): nat {
    if backup.content.Some? && env.outcome(first + 1) then 3 else 2
  }

  /** The number of the call that resolves the path of backup `i`, when the rollback starts at call `start`. */
  function CallAt(env: Env, start: nat, backups: seq<Entry>, i: nat): nat
    requires i <= |backups|
  {
    if i == 0 then start
    else CallAt(env, start, backups, i - 1) + CallsOf(env, CallAt(env, start, backups, i - 1), backups[i - 1])
  }

  predicate Resolves(env: Env, start: nat, backups: seq<Entry>, i: nat)
    requires i < |backups|
  {
    env.outcome(CallAt(env, start, backups, i))
  }

  /** The calls that make the directory, if there is a file to write, and that write or remove the file. */
  predicate Writes(env: Env, start: nat, backups: seq<Entry>, i: nat)
    requires i < |backups|
  {
    var first := CallAt(env, start, backups, i);
    env.outcome(first + 1) && (backups[i].content.Some? ==> env.outcome(first + 2))
  }

  /** Every path up to that of backup `i` is resolved, and its own calls succeed. */
  predicate ComesBack(env: Env, start: nat, backups: seq<Entry>, i: nat)
    requires i < |backups|
  {
    (forall j :: 0 <= j <= i ==> Resolves(env, start, backups, j)) && Writes(env, start, backups, i)
  }

  /** The paths among the first `n` backups whose own calls fail. */
  function FailedUpTo(env: Env, start: nat, backups: seq<Entry>, n: nat): set<Path>
    requires n <= |backups|
  {
    if n == 0 then {}
    else FailedUpTo(env, start, backups, n - 1)
         + (if Writes(env, start, backups, n - 1) then {} else {backups[n - 1].path})
  }

  /** The first `n` paths are resolved. */
  predicate ResolvesUpTo(env: Env, start: nat, backups: seq<Entry>, n: nat)
    requires n <= |backups|
  {
    forall i :: 0 <= i < n ==> Resolves(env, start, backups, i)
  }

  /** The report: the reached paths that failed are those whose calls did, and the end is where a resolve failed. */
  predicate IsReport(env: Env, start: nat, backups: seq<Entry>, r: Rollback) {
    && r.reached <= |backups| && ResolvesUpTo(env, start, backups, r.reached)
    && r.failures == FailedUpTo(env, start, backups, r.reached)
    && (r.reached < |backups| ==> !Resolves(env, start, backups, r.reached))
  }

  lemma {:induction false} FailedHaveNames(env: Env, start: nat, backups: seq<Entry>, n: nat, path: Path)
    requires n <= |backups| && path in FailedUpTo(env, start, backups, n)
    ensures exists i :: 0 <= i < n && backups[i].path == path
  {
    if path != backups[n - 1].path {
      FailedHaveNames(env, start, backups, n - 1, path);
    }
  }

  /** A path is reported exactly when its own calls failed. */
  lemma {:induction false} FailedExactly(env: Env, start: nat, backups: seq<Entry>, n: nat, i: nat)
    requires OncePerPath(backups) && i < n <= |backups|
    ensures backups[i].path in FailedUpTo(env, start, backups, n) <==> !Writes(env, start, backups, i)
  {
    if i < n - 1 {
      FailedExactly(env, start, backups, n - 1, i);
    } else if backups[i].path in FailedUpTo(env, start, backups, n - 1) {
      FailedHaveNames(env, start, backups, n - 1, backups[i].path);
    }
  }

  lemma RestoreOneIsItsCalls(env: Env, w: World, first: nat, backup: Entry)
    requires w.calls == first + 1
    ensures var (after, ok) := RestoreOne(env, w, backup);
            && (ok <==> env.outcome(first + 1) && (backup.content.Some? ==> env.outcome(first + 2)))
            && after.calls == first + CallsOf(env, first, backup)
            && after.files == (if ok then Put(w.files, backup) else w.files)
  {
    if backup.content.Some? {
      assert Tries(env, w, 1) == if Ok(env, w) then (Called(w), true) else (Called(w), false);
    }
  }

  lemma {:induction false} CallsGoUp(env: Env, start: nat, backups: seq<Entry>, i: nat)
    requires i <= |backups|
    ensures start <= CallAt(env, start, backups, i)
  {
    if 0 < i {
      CallsGoUp(env, start, backups, i - 1);
    }
  }

  /** What `restoreBackups` reports is exactly which of its calls failed. */
  lemma {:induction false} RestoreReports(env: Env, start: nat, w: World, backups: seq<Entry>, r: Rollback)
    requires r.reached <= |backups| && ResolvesUpTo(env, start, backups, r.reached)
    requires r.failures == FailedUpTo(env, start, backups, r.reached)
    requires w.calls == CallAt(env, start, backups, r.reached)
    ensures IsReport(env, start, backups, RestoreFrom(env, w, backups, r).1)
    decreases |backups| - r.reached
  {
    if r.reached < |backups| && Ok(env, w) {
      var next, further := RestoreReportsOne(env, start, w, backups, r);
      RestoreReports(env, start, next, backups, further);
    }
  }

  lemma RestoreReportsOne(env: Env, start: nat, w: World, backups: seq<Entry>, r: Rollback)
    returns (next: World, further: Rollback)
    requires r.reached < |backups| && ResolvesUpTo(env, start, backups, r.reached) && Ok(env, w)
    requires r.failures == FailedUpTo(env, start, backups, r.reached)
    requires w.calls == CallAt(env, start, backups, r.reached)
    ensures further.reached == r.reached + 1 && ResolvesUpTo(env, start, backups, further.reached)
    ensures further.failures == FailedUpTo(env, start, backups, further.reached)
    ensures next.calls == CallAt(env, start, backups, further.reached)
    ensures RestoreFrom(env, w, backups, r) == RestoreFrom(env, next, backups, further)
  {
    var backup := backups[r.reached];
    RestoreOneIsItsCalls(env, Called(w), w.calls, backup);
    var restored := RestoreOne(env, Called(w), backup);
    next := restored.0;
    further := Rollback(if restored.1 then r.failures else r.failures + {backup.path}, r.reached + 1);
  }

  /** The content of backup `i` is back in the end, unless its turn is over already or does not come. */
  lemma {:induction false} RestoreWrites(env: Env, start: nat, w: World, backups: seq<Entry>, r: Rollback, i: nat)
    requires OncePerPath(backups) && r.reached <= |backups| && i < |backups|
    requires w.calls == CallAt(env, start, backups, r.reached)
    requires forall j :: 0 <= j < r.reached ==> Resolves(env, start, backups, j)
    ensures Lookup(RestoreFrom(env, w, backups, r).0.files, backups[i].path) ==
              if r.reached <= i && ComesBack(env, start, backups, i) then backups[i].content
              else Lookup(w.files, backups[i].path)
    decreases |backups| - r.reached
  {
    if r.reached < |backups| {
      assert Resolves(env, start, backups, r.reached) == Ok(env, w);
      if Ok(env, w) {
        var backup := backups[r.reached];
        RestoreOneIsItsCalls(env, Called(w), w.calls, backup);
        var (next, ok) := RestoreOne(env, Called(w), backup);
        var further := Rollback(if ok then r.failures else r.failures + {backup.path}, r.reached + 1);
        assert r.reached != i ==> Lookup(next.files, backups[i].path) == Lookup(w.files, backups[i].path);
        RestoreWrites(env, start, next, backups, further, i);
      }
    }
  }

  /** A path without a backup is not touched. */
  lemma {:induction false} RestoreKeepsOthers(env: Env, w: World, backups: seq<Entry>, r: Rollback, path: Path)
    requires r.reached <= |backups| && !Names(backups, path)
    ensures Lookup(RestoreFrom(env, w, backups, r).0.files, path) == Lookup(w.files, path)
    decreases |backups| - r.reached
  {
    if r.reached < |backups| && Ok(env, w) {
      var backup := backups[r.reached];
      assert backup.path != path;
      var (next, ok) := RestoreOne(env, Called(w), backup);
      RestoreOneIsItsCalls(env, Called(w), w.calls, backup);
      RestoreKeepsOthers(env, next, backups,
                         Rollback(if ok then r.failures else r.failures + {backup.path}, r.reached + 1), path);
    }
  }

  /**
   `restoreBackups` as a whole, path by path: the old content exactly where the calls succeed, and else what
   was there.
   */
  lemma RestoreBackupsExactly(env: Env, w: World, backups: seq<Entry>, path: Path)
    requires OncePerPath(backups)
    ensures var (after, r) := RestoreFrom(env, w, backups, NothingRestored);
            && IsReport(env, w.calls, backups, r)
            && (!Names(backups, path) ==> Lookup(after.files, path) == Lookup(w.files, path))
            && (forall i :: 0 <= i < |backups| && backups[i].path == path ==>
                  Lookup(after.files, path) ==
                    if ComesBack(env, w.calls, backups, i) then backups[i].content else Lookup(w.files, path))
  {
    RestoreReports(env, w.calls, w, backups, NothingRestored);
    if Names(backups, path) {
      var i :| 0 <= i < |backups| && backups[i].path == path;
      RestoreWrites(env, w.calls, w, backups, NothingRestored, i);
    } else {
      RestoreKeepsOthers(env, w, backups, NothingRestored, path);
    }
  }

  lemma {:induction false} RestoreTakesTime(env: Env, w: World, backups: seq<Entry>, r: Rollback)
    requires r.reached <= |backups|
    ensures w.calls <= RestoreFrom(env, w, backups, r).0.calls
    ensures r.reached < |backups| ==> w.calls < RestoreFrom(env, w, backups, r).0.calls
    decreases |backups| - r.reached
  {
    if r.reached < |backups| && Ok(env, w) {
      var backup := backups[r.reached];
      RestoreOneIsItsCalls(env, Called(w), w.calls, backup);
      var (next, ok) := RestoreOne(env, Called(w), backup);
      RestoreTakesTime(env, next, backups,
                       Rollback(if ok then r.failures else r.failures + {backup.path}, r.reached + 1));
    }
  }

  /** When no call of the rollback fails, it reaches every backup and no path is reported. */
  lemma {:induction false} SmoothRestore(env: Env, w: World, backups: seq<Entry>, r: Rollback)
    requires r.reached <= |backups| && AllSucceed(env, w.calls, RestoreFrom(env, w, backups, r).0.calls)
    ensures RestoreFrom(env, w, backups, r).1 == Rollback(r.failures, |backups|)
    decreases |backups| - r.reached
  {
    RestoreTakesTime(env, w, backups, r);
    if r.reached < |backups| {
      assert Ok(env, w);
      var backup := backups[r.reached];
      RestoreOneIsItsCalls(env, Called(w), w.calls, backup);
      var (next, ok) := RestoreOne(env, Called(w), backup);
      var further := Rollback(if ok then r.failures else r.failures + {backup.path}, r.reached + 1);
      RestoreTakesTime(env, next, backups, further);
      SmoothRestore(env, next, backups, further);
    }
  }
}
