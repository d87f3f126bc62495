/**
 The fast tail of a full count: once no further match can become a result, the scanner only counts. This
 module shows that the shortcut changes nothing a caller sees, for the streaming scan and for prepared lines.
 */
module SearchFastTail {
  import opened Options
  import opened SearchScan

  /** Everything a search reports apart from the fast tail's own telemetry. */
  ghost predicate SameResults(s: State, f: State) {
    && f.matches == s.matches
    && f.files == s.files
    && f.queryCounts == s.queryCounts
    && f.responseBytesEstimate == s.responseBytesEstimate
    && f.responseLimitReached == s.responseLimitReached
    && f.matchedFiles == s.matchedFiles
    && f.truncated == s.truncated
    && f.stoppedEarly == s.stoppedEarly
    && f.stop == s.stop
  }

  function Slow(lim: Limits): Limits {
    lim.(exactTotalFastTail := false)
  }

  ghost predicate FullCount(lim: Limits) {
    lim.calculateTotal && lim.exactTotalFastTail
  }

  /** No further match can change the results of the slow scan. */
  ghost predicate Saturated(lim: Limits, s: State, pending: nat) {
    && s.truncated
    && if lim.filesOnly then lim.maxResults <= |s.files|
       else s.responseLimitReached || lim.maxResults <= |s.matches| + pending
  }

  /** `s` comes from the slow scan and `f` from the fast one; they part only once the slow one is saturated. */
  ghost predicate Alike(lim: Limits, s: State, f: State, ts: Tracker, tf: Tracker, pending: nat) {
    && SameResults(s, f)
    && !s.stop && !s.fastTailActive
    && ts.recorded == tf.recorded
    && if f.fastTailActive then Saturated(lim, s, pending) else f.skipped == s.skipped && tf == ts
  }

  /** In the tail the slow scan goes on counting, but passes every match over without a trace. */
  lemma FilterSaturated(lim: Limits, s: State, t: Tracker, core: Core, pending: nat)
    requires lim.calculateTotal && !lim.exactTotalFastTail && core.query < |s.queryCounts|
    requires Saturated(lim, s, pending) && !s.stop && !s.fastTailActive
    ensures var a := Filter(lim, s, t, core, pending);
            && a.verdict == PassOver && a.tracker.recorded
            && a.state == s.(queryCounts := s.queryCounts[core.query := s.queryCounts[core.query] + 1],
                             matchedFiles := if t.recorded then s.matchedFiles else s.matchedFiles + 1,
                             skipped := a.state.skipped)
  {
  }

  lemma RecordFileAlike(lim: Limits, s: State, f: State, record: FileRecord)
    requires FullCount(lim) && lim.filesOnly && SameResults(s, f) && !s.stop && !s.fastTailActive && !f.fastTailActive
    requires f.skipped == s.skipped
    ensures var s', f' := RecordFile(Slow(lim), s, record), RecordFile(lim, f, record);
            && SameResults(s', f') && !s'.stop && !s'.fastTailActive && f'.skipped == s'.skipped
            && (f'.fastTailActive ==> Saturated(lim, s', 0))
  {
  }

  lemma FilterAlike(lim: Limits, s: State, f: State, ts: Tracker, tf: Tracker, core: Core, pending: nat)
    requires FullCount(lim) && Alike(lim, s, f, ts, tf, pending) && core.query < |s.queryCounts|
    ensures var a := Filter(Slow(lim), s, ts, core, pending); var b := Filter(lim, f, tf, core, pending);
            && Alike(lim, a.state, b.state, a.tracker, b.tracker, pending)
            && a.verdict == b.verdict && a.verdict != Break
            && (a.verdict == Take ==> !lim.filesOnly && !b.state.fastTailActive)
  {
    if f.fastTailActive {
      FilterSaturated(Slow(lim), s, ts, core, pending);
    } else {
      FilterTogether(lim, s, f, ts, core, pending);
    }
  }

  lemma FilterTogether(lim: Limits, s: State, f: State, t: Tracker, core: Core, pending: nat)
    requires FullCount(lim) && Alike(lim, s, f, t, t, pending) && !f.fastTailActive && core.query < |s.queryCounts|
    ensures var a := Filter(Slow(lim), s, t, core, pending); var b := Filter(lim, f, t, core, pending);
            && Alike(lim, a.state, b.state, a.tracker, b.tracker, pending)
            && a.verdict == b.verdict && a.verdict != Break
            && (a.verdict == Take ==> !lim.filesOnly && !b.state.fastTailActive)
  {
    if lim.filesOnly && t.matchCount < lim.maxMatchesPerFile && lim.cursor <= s.skipped {
      FilterTogetherListing(lim, s, f, t, core, pending);
    } else {
      FilterTogetherElsewhere(lim, s, f, t, core, pending);
    }
  }

  lemma FilterTogetherElsewhere(lim: Limits, s: State, f: State, t: Tracker, core: Core, pending: nat)
    requires FullCount(lim) && Alike(lim, s, f, t, t, pending) && !f.fastTailActive && core.query < |s.queryCounts|
    requires !(lim.filesOnly && t.matchCount < lim.maxMatchesPerFile && lim.cursor <= s.skipped)
    ensures var a := Filter(Slow(lim), s, t, core, pending); var b := Filter(lim, f, t, core, pending);
            && Alike(lim, a.state, b.state, a.tracker, b.tracker, pending)
            && a.verdict == b.verdict && a.verdict != Break
            && (a.verdict == Take ==> !lim.filesOnly && !b.state.fastTailActive)
  {
  }

  lemma FilterTogetherListing(lim: Limits, s: State, f: State, t: Tracker, core: Core, pending: nat)
    requires FullCount(lim) && Alike(lim, s, f, t, t, pending) && !f.fastTailActive && core.query < |s.queryCounts|
    requires lim.filesOnly && t.matchCount < lim.maxMatchesPerFile && lim.cursor <= s.skipped
    ensures var a := Filter(Slow(lim), s, t, core, pending); var b := Filter(lim, f, t, core, pending);
            && Alike(lim, a.state, b.state, a.tracker, b.tracker, pending)
            && a.verdict == PassOver && b.verdict == PassOver
  {
    var counts := s.queryCounts[core.query := s.queryCounts[core.query] + 1];
    var files := if t.recorded then s.matchedFiles else s.matchedFiles + 1;
    RecordFileAlike(lim, s.(queryCounts := counts, matchedFiles := files),
                    f.(queryCounts := counts, matchedFiles := files), FileRecord(core.path, core.line, core.query));
  }

  lemma EmitAlike(lim: Limits, s: State, f: State, ts: Tracker, tf: Tracker, item: Item, pending: nat, left: nat)
    requires FullCount(lim) && !lim.filesOnly && Alike(lim, s, f, ts, tf, pending) && pending <= left + 1
    ensures Alike(lim, EmitMatch(Slow(lim), s, item), EmitMatch(lim, f, item), ts, tf, left)
  {
  }

  lemma {:induction false} FlushAlike(lim: Limits, s: State, f: State, ts: Tracker, tf: Tracker,
                                      pending: seq<Pending>, completeOnly: bool, kept: nat)
    requires FullCount(lim) && Alike(lim, s, f, ts, tf, kept + |pending|)
    requires lim.filesOnly ==> pending == []
    ensures var a := Flush(Slow(lim), s, pending, completeOnly); var b := Flush(lim, f, pending, completeOnly);
            a.1 == b.1 && |a.1| <= |pending| && Alike(lim, a.0, b.0, ts, tf, kept + |a.1|)
    decreases |pending|
  {
    if pending != [] {
      if completeOnly && |pending[0].after| < lim.contextLines {
        FlushAlike(lim, s, f, ts, tf, pending[1..], completeOnly, kept + 1);
      } else {
        var item := Finished(pending[0]);
        EmitAlike(lim, s, f, ts, tf, item, kept + |pending|, kept + |pending| - 1);
        FlushAlike(lim, EmitMatch(Slow(lim), s, item), EmitMatch(lim, f, item), ts, tf, pending[1..], completeOnly,
                   kept);
      }
    }
  }

  ghost predicate ScansAlike(lim: Limits, a: Scan, b: Scan) {
    && Alike(lim, a.state, b.state, a.tracker, b.tracker, |a.pending|)
    && b.before == a.before && b.pending == a.pending
    && (lim.filesOnly || lim.contextLines == 0 ==> a.pending == [])
  }

  lemma OnFoundAlike(lim: Limits, a: Scan, b: Scan, core: Core)
    requires FullCount(lim) && ScansAlike(lim, a, b) && core.query < |a.state.queryCounts|
    ensures var (a', stopA) := OnFound(Slow(lim), a, core); var (b', stopB) := OnFound(lim, b, core);
            ScansAlike(lim, a', b') && !stopA && !stopB
  {
    FilterAlike(lim, a.state, b.state, a.tracker, b.tracker, core, |a.pending|);
    var fa := Filter(Slow(lim), a.state, a.tracker, core, |a.pending|);
    var fb := Filter(lim, b.state, b.tracker, core, |a.pending|);
    if fa.verdict == Take && lim.contextLines == 0 {
      EmitAlike(lim, fa.state, fb.state, fa.tracker, fb.tracker, Item(core, None, None, false, false), 0, 0);
    }
  }

  lemma {:induction false} OnFoundsAlike(lim: Limits, a: Scan, b: Scan, path: string, line: nat, query: nat,
                                         founds: seq<Found>)
    requires FullCount(lim) && ScansAlike(lim, a, b) && query < |a.state.queryCounts|
    ensures ScansAlike(lim, OnFounds(Slow(lim), a, path, line, query, founds),
                       OnFounds(lim, b, path, line, query, founds))
    decreases |founds|
  {
    if founds != [] {
      var core := Core(path, line, query, founds[0]);
      OnFoundAlike(lim, a, b, core);
      OnFoundKeepsQueries(Slow(lim), a, core);
      OnFoundsAlike(lim, OnFound(Slow(lim), a, core).0, OnFound(lim, b, core).0, path, line, query, founds[1..]);
    }
  }

  lemma OnLineAlike(lim: Limits, a: Scan, b: Scan, path: string, number: nat, query: nat, line: Line)
    requires FullCount(lim) && ScansAlike(lim, a, b) && query < |a.state.queryCounts|
    ensures ScansAlike(lim, OnLine(Slow(lim), a, path, number, query, line), OnLine(lim, b, path, number, query, line))
  {
    var withLine := WithLine(lim, a.pending, line.text);
    assert WithLine(Slow(lim), a.pending, line.text) == withLine;
    if lim.contextLines != 0 {
      FlushAlike(lim, a.state, b.state, a.tracker, b.tracker, withLine, true, 0);
    }
    FlushKeepsQueries(Slow(lim), a.state, withLine, true);
    OnFoundsAlike(lim, LineArrives(Slow(lim), a, line.text), LineArrives(lim, b, line.text), path, number, query,
                  FoundsOf(line, query));
  }

  lemma {:induction false} OnLinesAlike(lim: Limits, a: Scan, b: Scan, file: File, query: nat, n: nat)
    requires FullCount(lim) && ScansAlike(lim, a, b) && query < |a.state.queryCounts| && n <= |file.lines|
    ensures ScansAlike(lim, OnLines(Slow(lim), a, file, query, n), OnLines(lim, b, file, query, n))
    decreases |file.lines| - n
  {
    if n < |file.lines| {
      OnLineAlike(lim, a, b, file.path, n + 1, query, file.lines[n]);
      OnLineKeepsQueries(Slow(lim), a, file.path, n + 1, query, file.lines[n]);
      OnLinesAlike(lim, OnLine(Slow(lim), a, file.path, n + 1, query, file.lines[n]),
                   OnLine(lim, b, file.path, n + 1, query, file.lines[n]), file, query, n + 1);
    }
  }

  lemma OnQueryAlike(lim: Limits, s: State, f: State, ts: Tracker, tf: Tracker, file: File, query: nat)
    requires FullCount(lim) && Alike(lim, s, f, ts, tf, 0) && query < |s.queryCounts|
    ensures var (s', ts') := OnQuery(Slow(lim), s, ts, file, query); var (f', tf') := OnQuery(lim, f, tf, file, query);
            Alike(lim, s', f', ts', tf', 0)
  {
    OnLinesAlike(lim, Scan(s, ts, [], []), Scan(f, tf, [], []), file, query, 0);
    var a := OnLines(Slow(lim), Scan(s, ts, [], []), file, query, 0);
    var b := OnLines(lim, Scan(f, tf, [], []), file, query, 0);
    FlushAlike(lim, a.state, b.state, a.tracker, b.tracker, a.pending, false, 0);
    FlushAllKeepsNothing(lim, b.state, b.pending);
  }

  lemma FlushAllKeepsNothing(lim: Limits, s: State, pending: seq<Pending>)
    ensures Flush(lim, s, pending, false).1 == []
    decreases |pending|
  {
  }

  lemma {:induction false} OnQueriesAlike(lim: Limits, s: State, f: State, ts: Tracker, tf: Tracker, file: File, q: nat)
    requires FullCount(lim) && Alike(lim, s, f, ts, tf, 0) && q <= |s.queryCounts|
    ensures var s' := OnQueries(Slow(lim), s, ts, file, q); var f' := OnQueries(lim, f, tf, file, q);
            Alike(lim, s', f', Tracker(0, false), Tracker(0, false), 0)
    decreases |s.queryCounts| - q
  {
    if q < |s.queryCounts| {
      OnQueryAlike(lim, s, f, ts, tf, file, q);
      OnQueryKeepsQueries(Slow(lim), s, ts, file, q);
      var (s', ts') := OnQuery(Slow(lim), s, ts, file, q);
      var (f', tf') := OnQuery(lim, f, tf, file, q);
      OnQueriesAlike(lim, s', f', ts', tf', file, q + 1);
    }
  }

  lemma {:induction false} OnFilesAlike(lim: Limits, s: State, f: State, files: seq<File>, n: nat)
    requires FullCount(lim) && Alike(lim, s, f, Tracker(0, false), Tracker(0, false), 0) && n <= |files|
    ensures SameResults(OnFiles(Slow(lim), s, files, n), OnFiles(lim, f, files, n))
    decreases |files| - n
  {
    if n < |files| {
      OnQueriesAlike(lim, s, f, Tracker(0, false), Tracker(0, false), files[n], 0);
      OnFilesAlike(lim, OnFile(Slow(lim), s, files[n]), OnFile(lim, f, files[n]), files, n + 1);
    }
  }

  /**
   With total counting on, the fast tail gives the same matches, files, counts, byte estimate and flags as
   the full scan, for all files, queries, lines, cursors and limits.
   */
  lemma FastTailIsInvisible(lim: Limits, queries: nat, files: seq<File>)
    requires lim.calculateTotal
    ensures SameResults(Search(lim.(exactTotalFastTail := false), queries, files),
                        Search(lim.(exactTotalFastTail := true), queries, files))
  {
    var fast := lim.(exactTotalFastTail := true);
    OnFilesAlike(fast, Initial(queries), Initial(queries), files, 0);
  }

  // ----- prepared lines -----

  lemma OnPreparedFoundAlike(lim: Limits, s: State, f: State, ts: Tracker, tf: Tracker, p: Prepared, core: Core)
    requires FullCount(lim) && Alike(lim, s, f, ts, tf, 0) && core.query < |s.queryCounts|
    ensures var a := OnPreparedFound(Slow(lim), s, ts, p, core); var b := OnPreparedFound(lim, f, tf, p, core);
            Alike(lim, a.state, b.state, a.tracker, b.tracker, 0) && a.verdict == b.verdict
  {
    FilterAlike(lim, s, f, ts, tf, core, 0);
    var a, b := Filter(Slow(lim), s, ts, core, 0), Filter(lim, f, tf, core, 0);
    assert Bounded(Slow(lim), p.before) == Bounded(lim, p.before);
    assert Bounded(Slow(lim), p.after) == Bounded(lim, p.after);
    if a.verdict == Take {
      EmitAlike(lim, a.state, b.state, a.tracker, b.tracker, PreparedItem(lim, core, p), 0, 0);
    }
  }

  lemma {:induction false} OnPreparedFoundsAlike(lim: Limits, s: State, f: State, ts: Tracker, tf: Tracker,
                                                 p: Prepared, n: nat)
    requires FullCount(lim) && Alike(lim, s, f, ts, tf, 0) && p.query < |s.queryCounts| && n <= |p.founds|
    ensures var (s', ts') := OnPreparedFounds(Slow(lim), s, ts, p, n);
            var (f', tf') := OnPreparedFounds(lim, f, tf, p, n);
            Alike(lim, s', f', ts', tf', 0)
    decreases |p.founds| - n
  {
    if n < |p.founds| {
      var core := Core(p.path, p.line, p.query, p.founds[n]);
      OnPreparedFoundAlike(lim, s, f, ts, tf, p, core);
      OnPreparedFoundKeepsQueries(Slow(lim), s, ts, p, core);
      var a, b := OnPreparedFound(Slow(lim), s, ts, p, core), OnPreparedFound(lim, f, tf, p, core);
      if a.verdict != Break {
        OnPreparedFoundsAlike(lim, a.state, b.state, a.tracker, b.tracker, p, n + 1);
      }
    }
  }

  /** The trackers of all files correspond. */
  ghost predicate IngestsAlike(lim: Limits, a: Ingest, b: Ingest) {
    forall path :: Alike(lim, a.state, b.state, TrackerOf(a.trackers, path), TrackerOf(b.trackers, path), 0)
  }

  lemma OnPreparedAlike(lim: Limits, a: Ingest, b: Ingest, p: Prepared)
    requires FullCount(lim) && IngestsAlike(lim, a, b) && p.query < |a.state.queryCounts|
    ensures IngestsAlike(lim, OnPrepared(Slow(lim), a, p), OnPrepared(lim, b, p))
  {
    OnPreparedFoundsAlike(lim, a.state, b.state, TrackerOf(a.trackers, p.path), TrackerOf(b.trackers, p.path), p, 0);
    var a', b' := OnPrepared(Slow(lim), a, p), OnPrepared(lim, b, p);
    OnPreparedFastTailStays(lim, b.state, TrackerOf(b.trackers, p.path), p, 0);
    forall path
      ensures Alike(lim, a'.state, b'.state, TrackerOf(a'.trackers, path), TrackerOf(b'.trackers, path), 0)
    {
      assert Alike(lim, a.state, b.state, TrackerOf(a.trackers, path), TrackerOf(b.trackers, path), 0);
      assert Alike(lim, a'.state, b'.state, TrackerOf(a'.trackers, p.path), TrackerOf(b'.trackers, p.path), 0);
    }
  }

  /** The fast tail is never left again. */
  lemma {:induction false} OnPreparedFastTailStays(lim: Limits, s: State, t: Tracker, p: Prepared, n: nat)
    requires p.query < |s.queryCounts| && n <= |p.founds|
    ensures s.fastTailActive ==> OnPreparedFounds(lim, s, t, p, n).0.fastTailActive
    decreases |p.founds| - n
  {
    if n < |p.founds| && s.fastTailActive {
      var f := OnPreparedFound(lim, s, t, p, Core(p.path, p.line, p.query, p.founds[n]));
      OnPreparedFastTailStays(lim, f.state, f.tracker, p, n + 1);
    }
  }

  lemma {:induction false} OnPreparedLinesAlike(lim: Limits, a: Ingest, b: Ingest, lines: seq<Prepared>, n: nat)
    requires FullCount(lim) && IngestsAlike(lim, a, b)
    requires |b.state.queryCounts| == |a.state.queryCounts|
    requires n <= |lines| && forall i :: 0 <= i < |lines| ==> lines[i].query < |a.state.queryCounts|
    ensures SameResults(OnPreparedLines(Slow(lim), a, lines, n).state, OnPreparedLines(lim, b, lines, n).state)
    decreases |lines| - n
  {
    assert Alike(lim, a.state, b.state, TrackerOf(a.trackers, ""), TrackerOf(b.trackers, ""), 0);
    if n < |lines| {
      var p := lines[n];
      OnPreparedAlike(lim, a, b, p);
      OnPreparedFoundsKeepsQueries(Slow(lim), a.state, TrackerOf(a.trackers, p.path), p, 0);
      OnPreparedFoundsKeepsQueries(lim, b.state, TrackerOf(b.trackers, p.path), p, 0);
      OnPreparedLinesAlike(lim, OnPrepared(Slow(lim), a, p), OnPrepared(lim, b, p), lines, n + 1);
    }
  }

  /** The same for lines that an external search has prepared, in whatever order they arrive. */
  lemma FastTailIsInvisibleForPreparedLines(lim: Limits, queries: nat, lines: seq<Prepared>)
    requires lim.calculateTotal
    requires forall i :: 0 <= i < |lines| ==> lines[i].query < queries
    ensures var start := Ingest(Initial(queries), map[]);
            SameResults(OnPreparedLines(lim.(exactTotalFastTail := false), start, lines, 0).state,
                        OnPreparedLines(lim.(exactTotalFastTail := true), start, lines, 0).state)
  {
    var start := Ingest(Initial(queries), map[]);
    OnPreparedLinesAlike(lim.(exactTotalFastTail := true), start, start, lines, 0);
  }
}
