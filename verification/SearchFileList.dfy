/**
 The search that lists files only: which files a page holds, and what following its next cursor lists. The cursor
 counts matches while a page counts files, so a file can be listed again; this says exactly when.
 */
module SearchFileList {
  import opened Options
  import opened SearchScan
  import opened SearchPaging
  import opened SearchPreparedPaging
  import opened SearchSeen

  // ----- the files of a list of matches -----

  predicate HasPath(cores: seq<Core>, path: string) {
    exists i :: 0 <= i < |cores| && cores[i].path == path
  }

  predicate PathsDiffer(cores: seq<Core>) {
    forall i, j :: 0 <= i < j < |cores| ==> cores[i].path != cores[j].path
  }

  /** Of the matches those that are the first of their file. */
  function Firsts(cores: seq<Core>): seq<Core> {
    if cores == [] then []
    else
      var front, last := cores[..|cores| - 1], cores[|cores| - 1];
      if HasPath(front, last.path) then Firsts(front) else Firsts(front) + [last]
  }

  function Records(cores: seq<Core>): seq<FileRecord> {
    seq(|cores|, i requires 0 <= i < |cores| => FileRecord(cores[i].path, cores[i].line, cores[i].query))
  }

  function Upto(cores: seq<Core>, size: nat): seq<Core> {
    cores[..Min(size, |cores|)]
  }

  function Behind(cores: seq<Core>, cursor: nat): seq<Core> {
    cores[Min(cursor, |cores|)..]
  }

  /** The files of the matches behind the cursor, each with its first match, as many as a page may hold. */
  predicate FilesListed(lim: Limits, s: State, seen: seq<Core>) {
    var firsts := Firsts(Behind(seen, lim.cursor));
    && s.skipped == Min(lim.cursor, |seen|)
    && s.files == Records(Upto(firsts, lim.maxResults))
    && (s.truncated <==> lim.maxResults < |firsts|)
  }

  // ----- first matches -----

  lemma FirstsOfOneMore(cores: seq<Core>, core: Core)
    ensures Firsts(cores + [core]) == if HasPath(cores, core.path) then Firsts(cores) else Firsts(cores) + [core]
  {
    assert (cores + [core])[..|cores|] == cores;
  }

  lemma HasPathOfOneMore(cores: seq<Core>, core: Core, path: string)
    ensures HasPath(cores + [core], path) <==> HasPath(cores, path) || core.path == path
  {
    if HasPath(cores, path) {
      var i :| 0 <= i < |cores| && cores[i].path == path;
      assert (cores + [core])[i].path == path;
    }
    assert (cores + [core])[|cores|] == core;
  }

  lemma HasPathOfBoth(front: seq<Core>, back: seq<Core>, path: string)
    ensures HasPath(front + back, path) <==> HasPath(front, path) || HasPath(back, path)
  {
    if HasPath(front, path) {
      var i :| 0 <= i < |front| && front[i].path == path;
      assert (front + back)[i].path == path;
    }
    if HasPath(back, path) {
      var i :| 0 <= i < |back| && back[i].path == path;
      assert (front + back)[|front| + i].path == path;
    }
  }

  lemma {:induction false} FirstsHavePaths(cores: seq<Core>, path: string)
    ensures HasPath(Firsts(cores), path) <==> HasPath(cores, path)
  {
    if cores != [] {
      var front, last := cores[..|cores| - 1], cores[|cores| - 1];
      assert cores == front + [last];
      FirstsHavePaths(front, path);
      HasPathOfOneMore(front, last, path);
      HasPathOfOneMore(Firsts(front), last, path);
    }
  }

  /** More matches add the new files among them, behind the others. */
  lemma {:induction false} FirstsOfBoth(front: seq<Core>, back: seq<Core>) returns (more: seq<Core>)
    ensures Firsts(front + back) == Firsts(front) + more
    ensures forall core :: core in more ==> core in back
    decreases |back|
  {
    if back == [] {
      more := [];
      assert front + back == front;
    } else {
      var rest, last := back[..|back| - 1], back[|back| - 1];
      assert front + back == (front + rest) + [last];
      FirstsOfOneMore(front + rest, last);
      more := FirstsOfBoth(front, rest);
      if !HasPath(front + rest, last.path) {
        more := more + [last];
      }
    }
  }

  lemma {:induction false} FirstsAreSome(cores: seq<Core>)
    ensures |Firsts(cores)| <= |cores|
    ensures |Firsts(cores)| == |cores| <==> PathsDiffer(cores)
    ensures PathsDiffer(cores) ==> Firsts(cores) == cores
  {
    if cores != [] {
      var front, last := cores[..|cores| - 1], cores[|cores| - 1];
      assert cores == front + [last];
      FirstsAreSome(front);
      if HasPath(front, last.path) {
        var i :| 0 <= i < |front| && front[i].path == last.path;
        assert cores[i].path == cores[|cores| - 1].path;
      } else if PathsDiffer(front) {
        OneMoreDiffers(front, last);
      } else {
        assert PathsDiffer(cores) ==> PathsDiffer(front);
      }
    }
  }

  lemma OneMoreDiffers(front: seq<Core>, last: Core)
    requires PathsDiffer(front) && !HasPath(front, last.path)
    ensures PathsDiffer(front + [last])
  {
  }

  // ----- one match -----

  /** A list that is cut is not changed by further matches. */
  lemma CutListIsFinal(lim: Limits, s: State, seen: seq<Core>, more: seq<Core>)
    requires FilesListed(lim, s, seen) && s.truncated
    ensures FilesListed(lim, s, seen + more)
  {
    FirstsAreSome(Behind(seen, lim.cursor));
    assert Behind(seen + more, lim.cursor) == Behind(seen, lim.cursor) + more;
    var added := FirstsOfBoth(Behind(seen, lim.cursor), more);
    var firsts := Firsts(Behind(seen, lim.cursor));
    assert Upto(firsts + added, lim.maxResults) == Upto(firsts, lim.maxResults);
  }

  lemma RecordsHavePaths(cores: seq<Core>, path: string)
    ensures HasFile(Records(cores), path) <==> HasPath(cores, path)
  {
    if HasPath(cores, path) {
      var i :| 0 <= i < |cores| && cores[i].path == path;
      assert Records(cores)[i].path == path;
    }
  }

  /** A match behind the cursor in a list that is not cut: listed, or its file is already there, or the list is cut. */
  lemma RecordLists(lim: Limits, s: State, core: Core, seen: seq<Core>)
    requires FilesListed(lim, s, seen) && !s.truncated && lim.cursor <= |seen|
    ensures FilesListed(lim, RecordFile(lim, s, FileRecord(core.path, core.line, core.query)), seen + [core])
  {
    var tail := Behind(seen, lim.cursor);
    assert Behind(seen + [core], lim.cursor) == tail + [core];
    FirstsOfOneMore(tail, core);
    FirstsHavePaths(tail, core.path);
    RecordsHavePaths(Firsts(tail), core.path);
    assert Upto(Firsts(tail), lim.maxResults) == Firsts(tail);
    if !HasPath(tail, core.path) {
      RecordsOfOneMore(lim, Firsts(tail), core);
    }
  }

  lemma RecordsOfOneMore(lim: Limits, firsts: seq<Core>, core: Core)
    ensures |firsts| < lim.maxResults ==>
              Records(Upto(firsts + [core], lim.maxResults))
                == Records(firsts) + [FileRecord(core.path, core.line, core.query)]
    ensures |firsts| == lim.maxResults ==> Upto(firsts + [core], lim.maxResults) == firsts
  {
    if |firsts| < lim.maxResults {
      assert Upto(firsts + [core], lim.maxResults) == firsts + [core];
    }
  }

  lemma FilterRecords(lim: Limits, s: State, t: Tracker, core: Core, pending: nat) returns (counted: State)
    requires lim.filesOnly && !s.fastTailActive && core.query < |s.queryCounts|
    requires t.matchCount < lim.maxMatchesPerFile
    ensures counted.files == s.files && counted.skipped == s.skipped && counted.truncated == s.truncated
    ensures Filter(lim, s, t, core, pending).state ==
              if s.skipped < lim.cursor then counted.(skipped := s.skipped + 1)
              else RecordFile(lim, counted, FileRecord(core.path, core.line, core.query))
  {
    counted := s.(queryCounts := s.queryCounts[core.query := s.queryCounts[core.query] + 1],
                  matchedFiles := if t.recorded then s.matchedFiles else s.matchedFiles + 1);
  }

  lemma FilterLists(lim: Limits, s: State, t: Tracker, core: Core, pending: nat, seen: seq<Core>)
    requires lim.filesOnly && FilesListed(lim, s, seen) && !s.truncated && !s.fastTailActive
    requires core.query < |s.queryCounts| && t.matchCount < lim.maxMatchesPerFile
    ensures FilesListed(lim, Filter(lim, s, t, core, pending).state, seen + [core])
  {
    var counted := FilterRecords(lim, s, t, core, pending);
    if s.skipped < lim.cursor {
      assert Behind(seen + [core], lim.cursor) == [] && Behind(seen, lim.cursor) == [];
    } else {
      RecordLists(lim, counted, core, seen);
    }
  }

  /** Of the next matches of a file those below its cap, when `counted` have been counted. */
  function Cut(lim: Limits, counted: nat, cores: seq<Core>): seq<Core> {
    Upto(cores, Max(0, lim.maxMatchesPerFile - counted))
  }

  ghost predicate Lists(lim: Limits, before: seq<Core>, counted: nat, s: State, t: Tracker, raw: seq<Core>) {
    && FilesListed(lim, s, before + Cut(lim, counted, raw))
    && (s.fastTailActive || s.stop ==> s.truncated)
    && (s.truncated || t.matchCount == counted + |raw|)
  }

  ghost function FileListing(lim: Limits, before: seq<Core>, counted: nat): Invariant {
    (s: State, t: Tracker, seen: seq<Core>) => Lists(lim, before, counted, s, t, seen)
  }

  lemma CutOfOneMore(lim: Limits, counted: nat, raw: seq<Core>, core: Core)
    ensures Cut(lim, counted, raw + [core])
         == Cut(lim, counted, raw) + if counted + |raw| < lim.maxMatchesPerFile then [core] else []
  {
  }

  lemma FilterKeepsCut(lim: Limits, s: State, t: Tracker, core: Core, pending: nat)
    requires lim.filesOnly && core.query < |s.queryCounts| && (s.fastTailActive || s.stop ==> s.truncated)
    ensures var f := Filter(lim, s, t, core, pending);
            && (f.state.fastTailActive || f.state.stop ==> f.state.truncated)
            && (s.truncated ==> f.state.truncated)
            && (!s.truncated ==> f.tracker.matchCount == t.matchCount + 1)
  {
  }

  /** A list that is cut lists no further file. */
  lemma FilterOfCut(lim: Limits, s: State, t: Tracker, core: Core, pending: nat, seen: seq<Core>)
    requires lim.filesOnly && core.query < |s.queryCounts| && FilesListed(lim, s, seen) && s.truncated
    ensures var f := Filter(lim, s, t, core, pending);
            f.state.files == s.files && f.state.skipped == s.skipped && f.state.truncated
  {
    FirstsAreSome(Behind(seen, lim.cursor));
  }

  lemma FilterKeepsLists(lim: Limits, before: seq<Core>, counted: nat, s: State, t: Tracker, raw: seq<Core>,
                         core: Core, pending: nat)
    requires lim.filesOnly && Lists(lim, before, counted, s, t, raw) && core.query < |s.queryCounts|
    ensures var f := Filter(lim, s, t, core, pending);
            Lists(lim, before, counted, f.state, f.tracker, raw + [core])
  {
    var f := Filter(lim, s, t, core, pending);
    var seen := before + Cut(lim, counted, raw);
    var more := if counted + |raw| < lim.maxMatchesPerFile then [core] else [];
    CutOfOneMore(lim, counted, raw, core);
    assert before + Cut(lim, counted, raw + [core]) == seen + more;
    FilterKeepsCut(lim, s, t, core, pending);
    if s.truncated {
      FilterOfCut(lim, s, t, core, pending, seen);
      assert FilesListed(lim, f.state, seen);
      CutListIsFinal(lim, f.state, seen, more);
    } else if more == [core] {
      FilterLists(lim, s, t, core, pending, seen);
    } else {
      assert seen + more == seen;
    }
  }

  lemma FileListingIsKept(lim: Limits, before: seq<Core>, counted: nat)
    requires lim.filesOnly
    ensures Keeps(lim, FileListing(lim, before, counted))
  {
    var inv := FileListing(lim, before, counted);
    forall s: State, t: Tracker, seen: seq<Core>, core: Core, pending: nat
        {:trigger inv(s, t, seen), Filter(lim, s, t, core, pending)}
      | inv(s, t, seen) && core.query < |s.queryCounts|
      ensures var f := Filter(lim, s, t, core, pending); inv(f.state, f.tracker, seen + [core])
    {
      FilterKeepsLists(lim, before, counted, s, t, seen, core, pending);
    }
  }

  // ----- all files -----

  /** As far as the scan came its list is that of all matches, since it stops only with a list that is cut. */
  lemma PartIsEnough(lim: Limits, before: seq<Core>, counted: nat, s: State, t: Tracker, part: seq<Core>,
                     raw: seq<Core>)
    requires Lists(lim, before, counted, s, t, part) && IsPart(part, raw, s.stop)
    ensures FilesListed(lim, s, before + Cut(lim, counted, raw))
  {
    if part != raw {
      var more := Cut(lim, counted, raw)[|Cut(lim, counted, part)|..];
      assert Cut(lim, counted, raw) == Cut(lim, counted, part) + more;
      assert before + Cut(lim, counted, raw) == (before + Cut(lim, counted, part)) + more;
      CutListIsFinal(lim, s, before + Cut(lim, counted, part), more);
    }
  }

  /** What holds between the files: the list is that of the matches so far. */
  predicate Between(lim: Limits, s: State, before: seq<Core>) {
    FilesListed(lim, s, before) && (s.fastTailActive || s.stop ==> s.truncated)
  }

  lemma FileLists(lim: Limits, s: State, file: File, before: seq<Core>)
    requires lim.filesOnly && Between(lim, s, before)
    ensures var next := OnFile(lim, s, file);
            && Between(lim, next, before + Capped(lim, QueriesCores(file, |s.queryCounts|, 0)))
            && |next.queryCounts| == |s.queryCounts|
  {
    var inv := FileListing(lim, before, 0);
    FileListingIsKept(lim, before, 0);
    assert before + Cut(lim, 0, []) == before;
    assert inv(s, Tracker(0, false), []);
    var part, end := FileSeen(lim, inv, s, file);
    var raw := QueriesCores(file, |s.queryCounts|, 0);
    PartIsEnough(lim, before, 0, OnFile(lim, s, file), end, part, raw);
    assert Cut(lim, 0, raw) == Capped(lim, raw);
  }

  /** One file further. */
  lemma FileFurther(lim: Limits, s: State, files: seq<File>, n: nat, before: seq<Core>)
    returns (next: State, longer: seq<Core>)
    requires lim.filesOnly && Between(lim, s, before) && n < |files| && !s.stop
    ensures Between(lim, next, longer) && |next.queryCounts| == |s.queryCounts|
    ensures OnFiles(lim, s, files, n) == OnFiles(lim, next, files, n + 1)
    ensures before + AllMatches(lim, |s.queryCounts|, files, n)
         == longer + AllMatches(lim, |s.queryCounts|, files, n + 1)
  {
    var first := Capped(lim, QueriesCores(files[n], |s.queryCounts|, 0));
    next, longer := OnFile(lim, s, files[n]), before + first;
    FileLists(lim, s, files[n], before);
    Regroup(before, first, AllMatches(lim, |s.queryCounts|, files, n + 1));
  }

  lemma {:induction false} FilesList(lim: Limits, s: State, files: seq<File>, n: nat, before: seq<Core>)
    requires lim.filesOnly && Between(lim, s, before) && n <= |files|
    ensures FilesListed(lim, OnFiles(lim, s, files, n), before + AllMatches(lim, |s.queryCounts|, files, n))
    decreases |files| - n
  {
    if n == |files| {
      assert before + [] == before;
    } else if s.stop {
      CutListIsFinal(lim, s, before, AllMatches(lim, |s.queryCounts|, files, n));
    } else {
      var next, longer := FileFurther(lim, s, files, n, before);
      FilesList(lim, next, files, n + 1, longer);
    }
  }

  /** The files a search lists. */
  lemma SearchListsFiles(lim: Limits, queries: nat, files: seq<File>)
    requires lim.filesOnly
    ensures FilesListed(lim, Search(lim, queries, files), AllMatches(lim, queries, files, 0))
  {
    FilesList(lim, Initial(queries), files, 0, []);
    assert [] + AllMatches(lim, queries, files, 0) == AllMatches(lim, queries, files, 0);
  }

  // ----- prepared lines -----

  /** The matches of one line, as far as they are below the cap of its path. */
  lemma PreparedFoundsList(lim: Limits, s: State, t: Tracker, p: Prepared, counted: nat, before: seq<Core>)
    requires lim.filesOnly && Between(lim, s, before) && p.query < |s.queryCounts|
    requires s.truncated || t.matchCount == counted
    ensures var (s', t') := OnPreparedFounds(lim, s, t, p, 0);
            && Between(lim, s', before + MatchesOf(lim, counted, p))
            && |s'.queryCounts| == |s.queryCounts|
            && (s'.truncated || t'.matchCount == counted + |p.founds|)
  {
    var raw := LineCores(p.path, p.line, p.query, p.founds);
    var inv := FileListing(lim, before, counted);
    FileListingIsKept(lim, before, counted);
    assert before + Cut(lim, counted, []) == before;
    assert inv(s, t, []);
    var part := PreparedSeen(lim, inv, s, t, p, 0, []);
    assert [] + part == part && p.founds[0..] == p.founds;
    var (s', t') := OnPreparedFounds(lim, s, t, p, 0);
    PartIsEnough(lim, before, counted, s', t', part, raw);
    BelowCapIsPrefix(lim, counted, raw);
    assert Cut(lim, counted, raw) == MatchesOf(lim, counted, p);
  }

  lemma PreparedLineLists(lim: Limits, g: Ingest, counts: map<string, nat>, p: Prepared, before: seq<Core>)
    requires lim.filesOnly && Between(lim, g.state, before) && p.query < |g.state.queryCounts|
    requires g.state.truncated || Counted(g.trackers, counts)
    ensures var next, counted := OnPrepared(lim, g, p), CountOf(counts, p.path);
            && Between(lim, next.state, before + MatchesOf(lim, counted, p))
            && |next.state.queryCounts| == |g.state.queryCounts|
            && (next.state.truncated || Counted(next.trackers, counts[p.path := counted + |p.founds|]))
  {
    var t, counted := TrackerOf(g.trackers, p.path), CountOf(counts, p.path);
    PreparedFoundsList(lim, g.state, t, p, counted, before);
    var (s', t') := OnPreparedFounds(lim, g.state, t, p, 0);
    if !s'.truncated {
      ListCutEarlier(lim, g.state, before, s', MatchesOf(lim, counted, p));
      CountedOn(g.trackers, counts, p.path, t', counted + |p.founds|);
    }
  }

  lemma ListCutEarlier(lim: Limits, s: State, before: seq<Core>, s': State, more: seq<Core>)
    requires FilesListed(lim, s, before) && FilesListed(lim, s', before + more) && !s'.truncated
    ensures !s.truncated
  {
    if s.truncated {
      CutListIsFinal(lim, s, before, more);
    }
  }

  lemma PreparedLineFurther(lim: Limits, g: Ingest, counts: map<string, nat>, lines: seq<Prepared>, n: nat,
                            before: seq<Core>) returns (next: Ingest, later: map<string, nat>, longer: seq<Core>)
    requires lim.filesOnly && Between(lim, g.state, before) && (g.state.truncated || Counted(g.trackers, counts))
    requires n < |lines| && !g.state.stop
    requires forall i :: 0 <= i < |lines| ==> lines[i].query < |g.state.queryCounts|
    ensures Between(lim, next.state, longer) && (next.state.truncated || Counted(next.trackers, later))
    ensures |next.state.queryCounts| == |g.state.queryCounts|
    ensures OnPreparedLines(lim, g, lines, n) == OnPreparedLines(lim, next, lines, n + 1)
    ensures before + PreparedMatches(lim, counts, lines, n) == longer + PreparedMatches(lim, later, lines, n + 1)
  {
    var p, counted := lines[n], CountOf(counts, lines[n].path);
    next, later := OnPrepared(lim, g, p), counts[p.path := counted + |p.founds|];
    longer := before + MatchesOf(lim, counted, p);
    PreparedLineLists(lim, g, counts, p, before);
    Regroup(before, MatchesOf(lim, counted, p), PreparedMatches(lim, later, lines, n + 1));
  }

  lemma {:induction false} PreparedLinesList(lim: Limits, g: Ingest, counts: map<string, nat>, lines: seq<Prepared>,
                                             n: nat, before: seq<Core>)
    requires lim.filesOnly && Between(lim, g.state, before) && (g.state.truncated || Counted(g.trackers, counts))
    requires n <= |lines| && forall i :: 0 <= i < |lines| ==> lines[i].query < |g.state.queryCounts|
    ensures FilesListed(lim, OnPreparedLines(lim, g, lines, n).state, before + PreparedMatches(lim, counts, lines, n))
    decreases |lines| - n
  {
    if n == |lines| {
      assert before + [] == before;
    } else if g.state.stop {
      CutListIsFinal(lim, g.state, before, PreparedMatches(lim, counts, lines, n));
    } else {
      var next, later, longer := PreparedLineFurther(lim, g, counts, lines, n, before);
      PreparedLinesList(lim, next, later, lines, n + 1, longer);
    }
  }

  /** The files a search over prepared lines lists. */
  lemma PreparedSearchListsFiles(lim: Limits, queries: nat, lines: seq<Prepared>)
    requires lim.filesOnly && QueriesExist(lines, queries)
    ensures FilesListed(lim, PreparedSearch(lim, queries, lines), PreparedMatches(lim, map[], lines, 0))
  {
    PreparedLinesList(lim, Ingest(Initial(queries), map[]), map[], lines, 0, []);
    var all := PreparedMatches(lim, map[], lines, 0);
    assert [] + all == all;
  }
}
