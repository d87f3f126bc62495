/**
 The totals of a search: matches per query and files with a match are counted for everything the scan comes to,
 which is all there is unless the search reports that it stopped early.
 */
module SearchCounts {
  import opened SearchScan
  import opened SearchPaging
  import opened SearchPreparedPaging
  import opened SearchSeen

  function Occurrences(cores: seq<Core>, query: nat): nat {
    if cores == [] then 0
    else Occurrences(cores[..|cores| - 1], query) + if cores[|cores| - 1].query == query then 1 else 0
  }

  lemma OneMoreOccurrence(cores: seq<Core>, core: Core, query: nat)
    ensures Occurrences(cores + [core], query) == Occurrences(cores, query) + if core.query == query then 1 else 0
  {
    assert (cores + [core])[..|cores|] == cores;
  }

  lemma {:induction false} OccurrencesOfBoth(front: seq<Core>, back: seq<Core>, query: nat)
    ensures Occurrences(front + back, query) == Occurrences(front, query) + Occurrences(back, query)
    decreases |back|
  {
    if back == [] {
      assert front + back == front;
    } else {
      var rest := back[..|back| - 1];
      assert (front + back)[..|front + back| - 1] == front + rest;
      OccurrencesOfBoth(front, rest, query);
    }
  }

  // ----- the flags -----

  /**
   A search stops exactly when a limit cut it and no total was asked for, and says so; if a total was asked for and the
   fast tail may be used, it is used instead, and says so.
   */
  predicate FlagsAgree(lim: Limits, s: State) {
    && s.stop == s.stoppedEarly == (s.truncated && !lim.calculateTotal)
    && (s.responseLimitReached ==> s.truncated)
    && s.fastTailActive == (s.truncated && lim.calculateTotal && lim.exactTotalFastTail)
    && s.fastTailActive == (0 < s.fastTailSkippedMatchDetails)
    && (lim.filesOnly ==> s.matches == [] && !s.responseLimitReached)
    && (!lim.filesOnly ==> s.files == [])
    && (lim.countOnly && !lim.filesOnly ==> s.matches == [] && !s.truncated)
  }

  // ----- one file -----

  predicate AreCounted(from: seq<nat>, counts: seq<nat>, seen: seq<Core>) {
    |counts| == |from| && forall q :: 0 <= q < |counts| ==> counts[q] == from[q] + Occurrences(seen, q)
  }

  /** What has been counted since `from`, where a match had been found in the file or not. */
  ghost predicate Counts(from: State, was: bool, s: State, t: Tracker, seen: seq<Core>) {
    && AreCounted(from.queryCounts, s.queryCounts, seen)
    && t.recorded == (was || seen != [])
    && s.matchedFiles == from.matchedFiles + if was || seen == [] then 0 else 1
  }

  ghost function Counting(lim: Limits, from: State, was: bool): Invariant {
    (s: State, t: Tracker, seen: seq<Core>) => Counts(from, was, s, t, seen) && FlagsAgree(lim, s)
  }

  lemma FilterCountsOne(lim: Limits, s: State, t: Tracker, core: Core, pending: nat)
    requires core.query < |s.queryCounts|
    ensures var f := Filter(lim, s, t, core, pending);
            && f.state.queryCounts == s.queryCounts[core.query := s.queryCounts[core.query] + 1]
            && f.tracker.recorded && f.state.matchedFiles == s.matchedFiles + if t.recorded then 0 else 1
  {
  }

  lemma OneMoreCounted(from: seq<nat>, counts: seq<nat>, seen: seq<Core>, core: Core)
    requires AreCounted(from, counts, seen) && core.query < |counts|
    ensures AreCounted(from, counts[core.query := counts[core.query] + 1], seen + [core])
  {
    forall q | 0 <= q < |counts|
      ensures Occurrences(seen + [core], q) == Occurrences(seen, q) + if core.query == q then 1 else 0
    {
      OneMoreOccurrence(seen, core, q);
    }
  }

  lemma FilterCounts(lim: Limits, from: State, was: bool, s: State, t: Tracker, seen: seq<Core>, core: Core,
                     pending: nat)
    requires Counts(from, was, s, t, seen) && core.query < |s.queryCounts|
    ensures var f := Filter(lim, s, t, core, pending); Counts(from, was, f.state, f.tracker, seen + [core])
  {
    FilterCountsOne(lim, s, t, core, pending);
    OneMoreCounted(from.queryCounts, s.queryCounts, seen, core);
  }

  lemma EmitCounts(lim: Limits, from: State, was: bool, s: State, t: Tracker, seen: seq<Core>, item: Item)
    requires Counts(from, was, s, t, seen)
    ensures Counts(from, was, EmitMatch(lim, s, item), t, seen)
  {
    var next := EmitMatch(lim, s, item);
    assert next.queryCounts == s.queryCounts && next.matchedFiles == s.matchedFiles;
  }

  lemma CountingIsKept(lim: Limits, from: State, was: bool)
    ensures Keeps(lim, Counting(lim, from, was))
  {
    var inv := Counting(lim, from, was);
    forall s: State, t: Tracker, seen: seq<Core>, core: Core, pending: nat
        {:trigger inv(s, t, seen), Filter(lim, s, t, core, pending)}
      | inv(s, t, seen) && core.query < |s.queryCounts|
      ensures var f := Filter(lim, s, t, core, pending); inv(f.state, f.tracker, seen + [core])
    {
      FilterCounts(lim, from, was, s, t, seen, core, pending);
      FlagsAfterFilter(lim, s, t, core, pending);
    }
    if !ListsNothing(lim) {
      forall s: State, t: Tracker, seen: seq<Core>, item: Item
          {:trigger inv(s, t, seen), EmitMatch(lim, s, item)}
        | inv(s, t, seen)
        ensures inv(EmitMatch(lim, s, item), t, seen)
      {
        EmitCounts(lim, from, was, s, t, seen, item);
        FlagsAfterEmit(lim, s, item);
      }
    }
  }

  lemma FlagsAfterEmit(lim: Limits, s: State, item: Item)
    requires FlagsAgree(lim, s) && !ListsNothing(lim)
    ensures FlagsAgree(lim, EmitMatch(lim, s, item))
  {
  }

  lemma FlagsAfterFilter(lim: Limits, s: State, t: Tracker, core: Core, pending: nat)
    requires FlagsAgree(lim, s) && core.query < |s.queryCounts|
    ensures FlagsAgree(lim, Filter(lim, s, t, core, pending).state)
  {
  }

  // ----- all files -----

  function Raw(file: File, queries: nat): seq<Core> {
    QueriesCores(file, queries, 0)
  }

  /** What was seen of each file from number `n` on: all of it, but for the last one of a search that stopped. */
  predicate ArePieces(pieces: seq<seq<Core>>, queries: nat, files: seq<File>, n: nat, stop: bool) {
    && n + |pieces| <= |files|
    && (stop || n + |pieces| == |files|)
    && forall i :: 0 <= i < |pieces| ==> IsPart(pieces[i], Raw(files[n + i], queries), stop && i == |pieces| - 1)
  }

  function Total(pieces: seq<seq<Core>>, query: nat): nat {
    if pieces == [] then 0 else Occurrences(pieces[0], query) + Total(pieces[1..], query)
  }

  function WithMatch(pieces: seq<seq<Core>>): nat {
    if pieces == [] then 0 else (if pieces[0] == [] then 0 else 1) + WithMatch(pieces[1..])
  }

  /** The totals of a search are those of some pieces, which are whole if it did not stop early. */
  ghost predicate CountsFiles(r: State, queries: nat, files: seq<File>) {
    && |r.queryCounts| == queries
    && exists pieces ::
         && ArePieces(pieces, queries, files, 0, r.stoppedEarly)
         && r.matchedFiles == WithMatch(pieces)
         && forall q :: 0 <= q < queries ==> r.queryCounts[q] == Total(pieces, q)
  }

  lemma FileCounted(lim: Limits, s: State, file: File) returns (part: seq<Core>)
    requires FlagsAgree(lim, s)
    ensures var next := OnFile(lim, s, file);
            && FlagsAgree(lim, next)
            && |next.queryCounts| == |s.queryCounts|
            && (forall q :: 0 <= q < |s.queryCounts| ==>
                  next.queryCounts[q] == s.queryCounts[q] + Occurrences(part, q))
            && next.matchedFiles == s.matchedFiles + (if part == [] then 0 else 1)
            && IsPart(part, Raw(file, |s.queryCounts|), next.stop)
  {
    var inv, end := Counting(lim, s, false), Tracker(0, false);
    CountingIsKept(lim, s, false);
    assert inv(s, Tracker(0, false), []);
    part, end := FileSeen(lim, inv, s, file);
  }

  /** What the pieces seen since `from` have added to the totals. */
  ghost predicate Adds(from: State, s: State, pieces: seq<seq<Core>>) {
    && |s.queryCounts| == |from.queryCounts|
    && s.matchedFiles == from.matchedFiles + WithMatch(pieces)
    && forall q :: 0 <= q < |s.queryCounts| ==> s.queryCounts[q] == from.queryCounts[q] + Total(pieces, q)
  }

  lemma AddsOneMore(from: State, next: State, s: State, part: seq<Core>, rest: seq<seq<Core>>)
    requires |next.queryCounts| == |from.queryCounts| && Adds(next, s, rest)
    requires forall q :: 0 <= q < |next.queryCounts| ==>
               next.queryCounts[q] == from.queryCounts[q] + Occurrences(part, q)
    requires next.matchedFiles == from.matchedFiles + if part == [] then 0 else 1
    ensures Adds(from, s, [part] + rest)
  {
    assert ([part] + rest)[1..] == rest;
  }

  lemma {:induction false} FilesCounted(lim: Limits, s: State, files: seq<File>, n: nat)
    returns (pieces: seq<seq<Core>>)
    requires FlagsAgree(lim, s) && n <= |files|
    ensures var end := OnFiles(lim, s, files, n);
            && FlagsAgree(lim, end) && Adds(s, end, pieces)
            && ArePieces(pieces, |s.queryCounts|, files, n, end.stop)
    ensures s.stop ==> pieces == []
    decreases |files| - n
  {
    if n == |files| || s.stop {
      pieces := [];
    } else {
      var next := OnFile(lim, s, files[n]);
      var part := FileCounted(lim, s, files[n]);
      var rest := FilesCounted(lim, next, files, n + 1);
      var end := OnFiles(lim, next, files, n + 1);
      pieces := [part] + rest;
      AddsOneMore(s, next, end, part, rest);
      PiecesFurther(part, rest, |s.queryCounts|, files, n, next.stop, end.stop);
    }
  }

  lemma PiecesFurther(part: seq<Core>, rest: seq<seq<Core>>, queries: nat, files: seq<File>, n: nat, stopped: bool,
                      stop: bool)
    requires n < |files| && IsPart(part, Raw(files[n], queries), stopped)
    requires ArePieces(rest, queries, files, n + 1, stop) && (stopped ==> rest == [] && stop)
    ensures ArePieces([part] + rest, queries, files, n, stop)
  {
    var pieces := [part] + rest;
    forall i | 0 <= i < |pieces|
      ensures IsPart(pieces[i], Raw(files[n + i], queries), stop && i == |pieces| - 1)
    {
      if 0 < i {
        assert pieces[i] == rest[i - 1] && files[n + i] == files[n + 1 + (i - 1)];
      }
    }
  }

  /** The totals a search over files reports, and when they are those of everything. */
  lemma SearchCountsFiles(lim: Limits, queries: nat, files: seq<File>)
    ensures var r := Search(lim, queries, files); CountsFiles(r, queries, files) && FlagsAgree(lim, r)
  {
    var start := Initial(queries);
    var pieces := FilesCounted(lim, start, files, 0);
    assert forall q :: 0 <= q < queries ==> start.queryCounts[q] == 0;
  }

  // ----- prepared lines -----

  function AllFound(lines: seq<Prepared>, n: nat): seq<Core>
    requires n <= |lines|
    decreases |lines| - n
  {
    if n == |lines| then []
    else LineCores(lines[n].path, lines[n].line, lines[n].query, lines[n].founds) + AllFound(lines, n + 1)
  }

  function PathsOf(cores: seq<Core>): set<string> {
    set core <- cores :: core.path
  }

  ghost predicate CountsSeen(s: State, trackers: map<string, Tracker>, seen: seq<Core>) {
    && (forall q :: 0 <= q < |s.queryCounts| ==> s.queryCounts[q] == Occurrences(seen, q))
    && s.matchedFiles == |PathsOf(seen)|
    && forall path :: path in PathsOf(seen) <==> TrackerOf(trackers, path).recorded
  }

  /** The totals are those of the matches seen, which are all unless the search stopped early. */
  ghost predicate CountsPrepared(r: State, queries: nat, lines: seq<Prepared>) {
    && |r.queryCounts| == queries
    && exists seen ::
         && IsPart(seen, AllFound(lines, 0), r.stoppedEarly)
         && r.matchedFiles == |PathsOf(seen)|
         && forall q :: 0 <= q < queries ==> r.queryCounts[q] == Occurrences(seen, q)
  }

  lemma PathsOfBoth(seen: seq<Core>, part: seq<Core>, path: string)
    requires forall core :: core in part ==> core.path == path
    ensures PathsOf(seen + part) == PathsOf(seen) + if part != [] then {path} else {}
  {
    if part != [] {
      assert part[0] in seen + part && part[0].path == path;
    }
  }

  lemma PartHasPath(part: seq<Core>, p: Prepared)
    requires part <= LineCores(p.path, p.line, p.query, p.founds)
    ensures forall core :: core in part ==> core.path == p.path
  {
  }

  lemma PreparedLineCounted(lim: Limits, g: Ingest, p: Prepared, seen: seq<Core>) returns (part: seq<Core>)
    requires FlagsAgree(lim, g.state) && CountsSeen(g.state, g.trackers, seen) && p.query < |g.state.queryCounts|
    ensures var next := OnPrepared(lim, g, p);
            && FlagsAgree(lim, next.state) && |next.state.queryCounts| == |g.state.queryCounts|
            && CountsSeen(next.state, next.trackers, seen + part)
            && IsPart(part, LineCores(p.path, p.line, p.query, p.founds), next.state.stop)
  {
    var t := TrackerOf(g.trackers, p.path);
    var inv := Counting(lim, g.state, t.recorded);
    CountingIsKept(lim, g.state, t.recorded);
    assert inv(g.state, t, []);
    part := PreparedSeen(lim, inv, g.state, t, p, 0, []);
    assert [] + part == part && p.founds[0..] == p.founds;
    var (s', t') := OnPreparedFounds(lim, g.state, t, p, 0);
    assert Counts(g.state, t.recorded, s', t', part);
    PartHasPath(part, p);
    TrackedFurther(g, p.path, s', t', seen, part);
  }

  lemma TrackedFurther(g: Ingest, path: string, s: State, t: Tracker, seen: seq<Core>, part: seq<Core>)
    requires CountsSeen(g.state, g.trackers, seen)
    requires Counts(g.state, TrackerOf(g.trackers, path).recorded, s, t, part)
    requires forall core :: core in part ==> core.path == path
    ensures CountsSeen(s, g.trackers[path := t], seen + part)
  {
    PathsOfBoth(seen, part, path);
    PathsFurther(g, path, s, t, PathsOf(seen), part != []);
    CountsFurther(g.state, s, seen, part);
  }

  lemma CountsFurther(from: State, s: State, seen: seq<Core>, part: seq<Core>)
    requires |s.queryCounts| == |from.queryCounts|
    requires forall q :: 0 <= q < |s.queryCounts| ==> from.queryCounts[q] == Occurrences(seen, q)
    requires forall q :: 0 <= q < |s.queryCounts| ==> s.queryCounts[q] == from.queryCounts[q] + Occurrences(part, q)
    ensures forall q :: 0 <= q < |s.queryCounts| ==> s.queryCounts[q] == Occurrences(seen + part, q)
  {
    forall q | 0 <= q < |s.queryCounts|
      ensures s.queryCounts[q] == Occurrences(seen + part, q)
    {
      OccurrencesOfBoth(seen, part, q);
    }
  }

  /** A path is recorded, and counted, with its first match. */
  lemma PathsFurther(g: Ingest, path: string, s: State, t: Tracker, paths: set<string>, more: bool)
    requires g.state.matchedFiles == |paths|
    requires forall other :: other in paths <==> TrackerOf(g.trackers, other).recorded
    requires t.recorded == (TrackerOf(g.trackers, path).recorded || more)
    requires s.matchedFiles == g.state.matchedFiles + if TrackerOf(g.trackers, path).recorded || !more then 0 else 1
    ensures var next := paths + if more then {path} else {};
            && s.matchedFiles == |next|
            && forall other :: other in next <==> TrackerOf(g.trackers[path := t], other).recorded
  {
    assert path in paths ==> paths + {path} == paths;
  }

  lemma {:induction false} PreparedLinesCounted(lim: Limits, g: Ingest, lines: seq<Prepared>, n: nat, seen: seq<Core>)
    returns (part: seq<Core>)
    requires FlagsAgree(lim, g.state) && CountsSeen(g.state, g.trackers, seen)
    requires n <= |lines| && forall i :: 0 <= i < |lines| ==> lines[i].query < |g.state.queryCounts|
    ensures var end := OnPreparedLines(lim, g, lines, n);
            && FlagsAgree(lim, end.state) && |end.state.queryCounts| == |g.state.queryCounts|
            && CountsSeen(end.state, end.trackers, seen + part)
            && IsPart(part, AllFound(lines, n), end.state.stop)
    ensures g.state.stop ==> part == []
    decreases |lines| - n
  {
    if n == |lines| || g.state.stop {
      part := [];
      assert seen + part == seen;
    } else {
      var next := OnPrepared(lim, g, lines[n]);
      var first := PreparedLineCounted(lim, g, lines[n], seen);
      var later := PreparedLinesCounted(lim, next, lines, n + 1, seen + first);
      part := first + later;
      assert seen + part == seen + first + later;
      var founds := LineCores(lines[n].path, lines[n].line, lines[n].query, lines[n].founds);
      if next.state.stop {
        assert part == first;
        PartOfFirst(first, founds, AllFound(lines, n + 1));
      } else {
        PartOfBoth(founds, AllFound(lines, n + 1), later, OnPreparedLines(lim, next, lines, n + 1).state.stop);
      }
    }
  }

  lemma SearchCountsPrepared(lim: Limits, queries: nat, lines: seq<Prepared>)
    requires QueriesExist(lines, queries)
    ensures var r := PreparedSearch(lim, queries, lines); CountsPrepared(r, queries, lines) && FlagsAgree(lim, r)
  {
    var seen := PreparedLinesCounted(lim, Ingest(Initial(queries), map[]), lines, 0, []);
    assert [] + seen == seen;
  }
}
