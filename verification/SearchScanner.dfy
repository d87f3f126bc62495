/** The scanner as the object whose fields the two match loops update. */
module SearchScanner {
  import opened Options
  import opened SearchScan

  class SearchScanState {
    var matches: seq<Item>
    var files: seq<FileRecord>
    var queryCounts: seq<nat>
    var responseBytesEstimate: nat
    var responseLimitReached: bool
    var matchedFiles: nat
    var skipped: nat
    var truncated: bool
    var stoppedEarly: bool
    var stop: bool
    var fastTailActive: bool
    var fastTailSkippedMatchDetails: nat

    function View(): State
      reads this
    {
      State(matches, files, queryCounts, responseBytesEstimate, responseLimitReached, matchedFiles, skipped,
            truncated, stoppedEarly, stop, fastTailActive, fastTailSkippedMatchDetails)
    }

    constructor (queries: nat)
      ensures View() == Initial(queries)
    {
      matches, files, queryCounts, responseBytesEstimate := [], [], seq(queries, _ => 0), 0;
      responseLimitReached, matchedFiles, skipped, truncated := false, 0, 0, false;
      stoppedEarly, stop, fastTailActive, fastTailSkippedMatchDetails := false, false, false, 0;
    }

    method ReachLimit(lim: Limits)
      modifies this
      ensures View() == HitLimit(lim, old(View()))
    {
      truncated := true;
      if lim.calculateTotal {
        if lim.exactTotalFastTail {
          fastTailActive := true;
          fastTailSkippedMatchDetails := fastTailSkippedMatchDetails + 1;
        }
      } else {
        stoppedEarly := true;
        stop := true;
      }
    }

    method Record(lim: Limits, record: FileRecord)
      modifies this
      ensures View() == RecordFile(lim, old(View()), record)
    {
      for i := 0 to |files|
        invariant View() == old(View()) && !HasFile(files[..i], record.path)
      {
        if files[i].path == record.path {
          return;
        }
      }
      assert files[..|files|] == files;
      if |files| >= lim.maxResults {
        ReachLimit(lim);
      } else {
        files := files + [record];
      }
    }

    method Emit(lim: Limits, item: Item)
      modifies this
      ensures View() == EmitMatch(lim, old(View()), item)
    {
      var fitted, bytes := item, lim.size(item);
      if |matches| == 0 && bytes > lim.responseBytesLimit && (item.before.Some? || item.after.Some?) {
        fitted := item.(before := None, after := None, contextOmitted := true);
        bytes := lim.size(fitted);
      }
      if responseBytesEstimate + bytes > lim.responseBytesLimit {
        responseLimitReached := true;
        ReachLimit(lim);
      } else {
        responseBytesEstimate := responseBytesEstimate + bytes;
        matches := matches + [fitted];
      }
    }

    /** The head of both match loops. */
    method FilterMatch(lim: Limits, t: Tracker, core: Core, pending: nat) returns (tracker: Tracker, verdict: Verdict)
      requires core.query < |queryCounts|
      modifies this
      ensures Filtered(View(), tracker, verdict) == Filter(lim, old(View()), t, core, pending)
    {
      tracker := t;
      queryCounts := queryCounts[core.query := queryCounts[core.query] + 1];
      if !tracker.recorded {
        matchedFiles := matchedFiles + 1;
        tracker := tracker.(recorded := true);
      }
      if fastTailActive {
        fastTailSkippedMatchDetails := fastTailSkippedMatchDetails + 1;
        return tracker, PassOver;
      }
      tracker := tracker.(matchCount := tracker.matchCount + 1);
      if tracker.matchCount > lim.maxMatchesPerFile {
        return tracker, PassOver;
      }
      if skipped < lim.cursor {
        skipped := skipped + 1;
        return tracker, PassOver;
      }
      if lim.filesOnly {
        Record(lim, FileRecord(core.path, core.line, core.query));
        return tracker, if stop then Break else PassOver;
      }
      if lim.countOnly || responseLimitReached {
        return tracker, PassOver;
      }
      if |matches| + pending >= lim.maxResults {
        ReachLimit(lim);
        return tracker, if lim.calculateTotal then PassOver else Break;
      }
      return tracker, Take;
    }

    method FlushPending(lim: Limits, pending: seq<Pending>, completeOnly: bool) returns (kept: seq<Pending>)
      modifies this
      ensures (View(), kept) == Flush(lim, old(View()), pending, completeOnly)
    {
      kept := [];
      ghost var before := View();
      assert pending[0..] == pending;
      assert [] + Flush(lim, before, pending, completeOnly).1 == Flush(lim, before, pending, completeOnly).1;
      for i := 0 to |pending|
        invariant Flush(lim, before, pending, completeOnly)
               == (var (s, rest) := Flush(lim, View(), pending[i..], completeOnly); (s, kept + rest))
      {
        assert pending[i..][1..] == pending[i + 1..];
        if completeOnly && |pending[i].after| < lim.contextLines {
          ghost var rest := Flush(lim, View(), pending[i + 1..], completeOnly).1;
          assert kept + ([pending[i]] + rest) == (kept + [pending[i]]) + rest;
          kept := kept + [pending[i]];
        } else {
          Emit(lim, Finished(pending[i]));
        }
      }
      assert kept + [] == kept;
    }

    /** All matches of one query on one line. */
    method SearchLine(lim: Limits, path: string, line: nat, query: nat, founds: seq<Found>,
                      t: Tracker, before: seq<string>, p: seq<Pending>)
      returns (tracker: Tracker, pending: seq<Pending>)
      requires query < |queryCounts|
      modifies this
      ensures Scan(View(), tracker, before, pending)
           == OnFounds(lim, Scan(old(View()), t, before, p), path, line, query, founds)
      ensures |queryCounts| == |old(queryCounts)|
    {
      tracker, pending := t, p;
      ghost var start := Scan(View(), t, before, p);
      for i := 0 to |founds|
        invariant |queryCounts| == |old(queryCounts)|
        invariant OnFounds(lim, start, path, line, query, founds)
               == OnFounds(lim, Scan(View(), tracker, before, pending), path, line, query, founds[i..])
      {
        var core := Core(path, line, query, founds[i]);
        assert founds[i..][1..] == founds[i + 1..];
        OnFoundKeepsQueries(lim, Scan(View(), tracker, before, pending), core);
        var verdict;
        tracker, verdict := FilterMatch(lim, tracker, core, |pending|);
        if verdict == Break {
          return;
        }
        if verdict == Take {
          if lim.contextLines == 0 {
            Emit(lim, Item(core, None, None, false, false));
          } else {
            var item := Item(core, Some(Bounded(lim, before)), None, false, false);
            pending := pending + [Pending(item, [], AnyCut(lim, before))];
          }
          if stop {
            return;
          }
        }
      }
    }

    /** One query over the lines of one file. */
    method ScanQuery(lim: Limits, file: File, query: nat, t: Tracker) returns (tracker: Tracker)
      requires query < |queryCounts|
      modifies this
      ensures (View(), tracker) == OnQuery(lim, old(View()), t, file, query)
      ensures |queryCounts| == |old(queryCounts)|
    {
      OnQueryKeepsQueries(lim, View(), t, file, query);
      ghost var start := Scan(View(), t, [], []);
      tracker := t;
      var before: seq<string>, pending: seq<Pending> := [], [];
      var n := 0;
      while n < |file.lines| && !stop
        invariant n <= |file.lines| && |queryCounts| == |old(queryCounts)|
        invariant OnLines(lim, start, file, query, 0)
               == OnLines(lim, Scan(View(), tracker, before, pending), file, query, n)
      {
        var line := file.lines[n];
        ghost var scan := Scan(View(), tracker, before, pending);
        OnLineKeepsQueries(lim, scan, file.path, n + 1, query, line);
        FlushKeepsQueries(lim, View(), WithLine(lim, pending, line.text), true);
        if lim.contextLines > 0 {
          pending := FlushPending(lim, WithLine(lim, pending, line.text), true);
        }
        tracker, pending := SearchLine(lim, file.path, n + 1, query, FoundsOf(line, query), tracker, before, pending);
        before := Remember(lim, before, line.text);
        n := n + 1;
      }
      if lim.contextLines > 0 {
        var _ := FlushPending(lim, pending, false);
      }
    }

    /** `scanSearchFileStreaming`. */
    method ScanFile(lim: Limits, file: File)
      modifies this
      ensures View() == OnFile(lim, old(View()), file)
    {
      var tracker := Tracker(0, false);
      var q := 0;
      while q < |queryCounts| && !stop
        invariant q <= |queryCounts|
        invariant OnFile(lim, old(View()), file) == OnQueries(lim, View(), tracker, file, q)
      {
        tracker := ScanQuery(lim, file, q, tracker);
        q := q + 1;
      }
    }

    /** One match of a prepared line; the flag says that the loop over the line ends. */
    method IngestFound(lim: Limits, p: Prepared, t: Tracker, core: Core) returns (tracker: Tracker, ends: bool)
      requires core.query < |queryCounts|
      modifies this
      ensures var f := OnPreparedFound(lim, old(View()), t, p, core);
              View() == f.state && tracker == f.tracker && (ends <==> f.verdict == Break)
      ensures |queryCounts| == |old(queryCounts)|
    {
      OnPreparedFoundKeepsQueries(lim, View(), t, p, core);
      var verdict;
      tracker, verdict := FilterMatch(lim, t, core, 0);
      ends := verdict == Break;
      if verdict == Take {
        Emit(lim, PreparedItem(lim, core, p));
        ends := stop;
      }
    }

    /** The match loop of a prepared line. */
    method IngestFounds(lim: Limits, p: Prepared, t: Tracker) returns (tracker: Tracker)
      requires p.query < |queryCounts|
      modifies this
      ensures (View(), tracker) == OnPreparedFounds(lim, old(View()), t, p, 0)
    {
      tracker := t;
      for n := 0 to |p.founds|
        invariant |queryCounts| == |old(queryCounts)|
        invariant OnPreparedFounds(lim, old(View()), t, p, 0) == OnPreparedFounds(lim, View(), tracker, p, n)
      {
        var ends;
        tracker, ends := IngestFound(lim, p, tracker, Core(p.path, p.line, p.query, p.founds[n]));
        if ends {
          return;
        }
      }
    }

    /** `ingestPreparedLine`; the trackers are keyed by path. */
    method IngestPreparedLine(lim: Limits, p: Prepared, trackers: map<string, Tracker>)
      returns (updated: map<string, Tracker>)
      requires p.query < |queryCounts|
      modifies this
      ensures Ingest(View(), updated) == OnPrepared(lim, Ingest(old(View()), trackers), p)
    {
      var tracker := IngestFounds(lim, p, TrackerOf(trackers, p.path));
      updated := trackers[p.path := tracker];
    }
  }
}
