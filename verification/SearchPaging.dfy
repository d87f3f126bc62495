/**
 Pages of a content search: the page at a cursor is the matching slice of the full list of matches, up to
 what fits the response limit, and following the next cursor lists every match once, in order.
 */
module SearchPaging {
  import opened Options
  import opened SearchScan
  import opened SearchFastTail

  // ----- the full list of matches -----

  function LineCores(path: string, line: nat, query: nat, founds: seq<Found>): seq<Core> {
    seq(|founds|, i requires 0 <= i < |founds| => Core(path, line, query, founds[i]))
  }

  function LinesCores(file: File, query: nat, n: nat): seq<Core>
    requires n <= |file.lines|
    decreases |file.lines| - n
  {
    if n == |file.lines| then []
    else LineCores(file.path, n + 1, query, FoundsOf(file.lines[n], query)) + LinesCores(file, query, n + 1)
  }

  function QueriesCores(file: File, queries: nat, q: nat): seq<Core>
    requires q <= queries
    decreases queries - q
  {
    if q == queries then [] else LinesCores(file, q, 0) + QueriesCores(file, queries, q + 1)
  }

  /** The first matches of a file, up to the cap per file. */
  function Capped(lim: Limits, cores: seq<Core>): seq<Core> {
    if |cores| <= lim.maxMatchesPerFile then cores else cores[..lim.maxMatchesPerFile]
  }

  /** Every match a search can list, in scan order: file by file, query by query, line by line. */
  function AllMatches(lim: Limits, queries: nat, files: seq<File>, n: nat): seq<Core>
    requires n <= |files|
    decreases |files| - n
  {
    if n == |files| then []
    else Capped(lim, QueriesCores(files[n], queries, 0)) + AllMatches(lim, queries, files, n + 1)
  }

  function Page(cores: seq<Core>, cursor: nat, size: nat): seq<Core> {
    if |cores| <= cursor then [] else cores[cursor..Min(cursor + size, |cores|)]
  }

  function ItemCores(items: seq<Item>): seq<Core> {
    seq(|items|, i requires 0 <= i < |items| => items[i].core)
  }

  function PendingCores(pending: seq<Pending>): seq<Core> {
    seq(|pending|, i requires 0 <= i < |pending| => pending[i].item.core)
  }

  // ----- the invariant -----

  /** Every item without context fits the response alone. */
  ghost predicate ItemsFit(lim: Limits) {
    forall item: Item {:trigger lim.size(item)} :: item.before.None? && item.after.None? ==>
      lim.size(item) <= lim.responseBytesLimit
  }

  /**
   Results and pending results are the slice of what has been seen, as long as it is; it is cut exactly when
   more has been seen, and short of the limit of results only when the response limit was hit.
   */
  ghost predicate Sliced(lim: Limits, s: State, pending: seq<Pending>, seen: seq<Core>) {
    var taken := |s.matches| + |pending|;
    && s.skipped == Min(lim.cursor, |seen|)
    && ItemCores(s.matches) + PendingCores(pending) == Page(seen, lim.cursor, taken)
    && taken <= lim.maxResults
    && (s.truncated <==> lim.cursor + taken < |seen|)
    && (s.stop || s.responseLimitReached ==> s.truncated)
    && (s.truncated ==> s.responseLimitReached || taken == lim.maxResults)
    && (s.matches == [] ==> s.responseBytesEstimate == 0)
    && (ItemsFit(lim) && s.responseLimitReached ==> s.matches != [])
  }

  /** With context lines nothing is said once the response limit is hit, as pending results may then be lost. */
  ghost predicate Paged(lim: Limits, s: State, pending: seq<Pending>, seen: seq<Core>) {
    (lim.contextLines != 0 && s.responseLimitReached) || Sliced(lim, s, pending, seen)
  }

  ghost predicate ContentSearch(lim: Limits) {
    !lim.filesOnly && !lim.countOnly && !lim.exactTotalFastTail
  }

  /** A page that is known to be cut stays the same however much more is seen. */
  lemma CutSliceIsFinal(lim: Limits, s: State, pending: seq<Pending>, seen: seq<Core>, more: seq<Core>)
    requires Sliced(lim, s, pending, seen) && s.truncated
    ensures Sliced(lim, s, pending, seen + more)
  {
    var taken := |s.matches| + |pending|;
    assert Page(seen + more, lim.cursor, taken) == Page(seen, lim.cursor, taken);
  }

  lemma CutPageIsFinal(lim: Limits, s: State, pending: seq<Pending>, seen: seq<Core>, more: seq<Core>)
    requires Paged(lim, s, pending, seen) && (s.truncated || s.responseLimitReached)
    ensures Paged(lim, s, pending, seen + more)
  {
    if Sliced(lim, s, pending, seen) {
      CutSliceIsFinal(lim, s, pending, seen, more);
    }
  }

  /** What the filter does to a match below the cap of its file, in terms of the list of matches seen. */
  lemma FilterSliced(lim: Limits, s: State, t: Tracker, core: Core, pending: seq<Pending>, seen: seq<Core>)
    requires ContentSearch(lim) && Sliced(lim, s, pending, seen) && !s.fastTailActive && core.query < |s.queryCounts|
    requires t.matchCount < lim.maxMatchesPerFile
    ensures var f := Filter(lim, s, t, core, |pending|);
            && !f.state.fastTailActive && f.tracker.matchCount == t.matchCount + 1
            && (f.verdict == Break ==> f.state.stop)
            && (f.verdict == PassOver ==> f.state.stop == s.stop)
            && (f.verdict != Take ==> Sliced(lim, f.state, pending, seen + [core]))
  {
    var f := Filter(lim, s, t, core, |pending|);
    if f.verdict != Take {
      var taken := |s.matches| + |pending|;
      if s.skipped < lim.cursor {
        assert Page(seen + [core], lim.cursor, taken) == [] == Page(seen, lim.cursor, taken);
      } else {
        assert Page(seen + [core], lim.cursor, taken) == Page(seen, lim.cursor, taken);
      }
    }
  }

  /** A match is taken up exactly at the end of what has been seen, while there is room. */
  lemma TakenIsNext(lim: Limits, s: State, t: Tracker, core: Core, pending: seq<Pending>, seen: seq<Core>)
    requires ContentSearch(lim) && Sliced(lim, s, pending, seen) && !s.fastTailActive && core.query < |s.queryCounts|
    requires Filter(lim, s, t, core, |pending|).verdict == Take
    ensures var f := Filter(lim, s, t, core, |pending|); var taken := |s.matches| + |pending|;
            && f.state == s.(queryCounts := f.state.queryCounts, matchedFiles := f.state.matchedFiles)
            && t.matchCount < lim.maxMatchesPerFile && !s.responseLimitReached && !s.truncated && !s.stop
            && lim.cursor + taken == |seen| && taken < lim.maxResults
            && Page(seen + [core], lim.cursor, taken + 1) == Page(seen, lim.cursor, taken) + [core]
  {
  }

  /** A result that is emitted at once follows the others, or the response limit cuts the page in front of it. */
  lemma EmitSliced(lim: Limits, s: State, t: Tracker, core: Core, item: Item, seen: seq<Core>)
    requires ContentSearch(lim) && Sliced(lim, s, [], seen) && !s.fastTailActive && core.query < |s.queryCounts|
    requires Filter(lim, s, t, core, 0).verdict == Take && item.core == core
    requires item.before.None? <==> item.after.None?
    ensures var s' := EmitMatch(lim, Filter(lim, s, t, core, 0).state, item);
            Sliced(lim, s', [], seen + [core]) && !s'.fastTailActive
  {
    TakenIsNext(lim, s, t, core, [], seen);
    var f := Filter(lim, s, t, core, 0).state;
    var fitted := Fitted(lim, f, item);
    if lim.responseBytesLimit < s.responseBytesEstimate + lim.size(fitted) {
      assert ItemsFit(lim) && s.matches == [] ==> lim.size(fitted) <= lim.responseBytesLimit;
      CutInFront(lim, s, HitLimit(lim, f.(responseLimitReached := true)), core, seen);
    } else {
      OneMoreListed(lim, s, EmitMatch(lim, f, item), fitted, seen);
    }
  }

  lemma CutInFront(lim: Limits, s: State, s': State, core: Core, seen: seq<Core>)
    requires Sliced(lim, s, [], seen) && lim.cursor + |s.matches| == |seen| && s'.responseLimitReached && s'.truncated
    requires s'.matches == s.matches && s'.skipped == s.skipped && s'.responseBytesEstimate == s.responseBytesEstimate
    requires ItemsFit(lim) ==> s.matches != []
    ensures Sliced(lim, s', [], seen + [core])
  {
    assert Page(seen + [core], lim.cursor, |s.matches|) == Page(seen, lim.cursor, |s.matches|);
  }

  lemma OneMoreListed(lim: Limits, s: State, s': State, item: Item, seen: seq<Core>)
    requires Sliced(lim, s, [], seen) && lim.cursor + |s.matches| == |seen| && |s.matches| < lim.maxResults
    requires !s.truncated && !s.stop && !s.responseLimitReached
    requires !s'.truncated && !s'.stop && !s'.responseLimitReached && s'.skipped == s.skipped
    requires s'.matches == s.matches + [item]
    ensures Sliced(lim, s', [], seen + [item.core])
  {
    assert PendingCores([]) == [] && ItemCores(s.matches) + [] == ItemCores(s.matches);
    assert ItemCores(s'.matches) == ItemCores(s.matches) + [item.core];
    assert ItemCores(s'.matches) + [] == ItemCores(s'.matches);
  }

  lemma CappedExtends(lim: Limits, base: seq<Core>, raw: seq<Core>, more: seq<Core>) returns (rest: seq<Core>)
    ensures base + Capped(lim, raw + more) == base + Capped(lim, raw) + rest
  {
    rest := Capped(lim, raw + more)[|Capped(lim, raw)|..];
    assert Capped(lim, raw + more)[..|Capped(lim, raw)|] == Capped(lim, raw);
  }

  /** Pending results complete their context in the order they were found. */
  ghost predicate Descending(pending: seq<Pending>) {
    forall i, j :: 0 <= i < j < |pending| ==> |pending[j].after| <= |pending[i].after|
  }

  /** The scan of one file after its matches `raw`, with `base` seen in the files before. */
  ghost predicate ScanPaged(lim: Limits, scan: Scan, base: seq<Core>, raw: seq<Core>) {
    && Paged(lim, scan.state, scan.pending, base + Capped(lim, raw))
    && Descending(scan.pending)
    && (lim.contextLines == 0 ==> scan.pending == [])
    && (scan.state.stop || scan.tracker.matchCount == |raw|)
    && !scan.state.fastTailActive
  }

  lemma StoppedScanIsFinal(lim: Limits, scan: Scan, base: seq<Core>, raw: seq<Core>, more: seq<Core>)
    requires ScanPaged(lim, scan, base, raw) && scan.state.stop
    ensures ScanPaged(lim, scan, base, raw + more)
  {
    var rest := CappedExtends(lim, base, raw, more);
    CutPageIsFinal(lim, scan.state, scan.pending, base + Capped(lim, raw), rest);
  }

  lemma EmitKeepsCores(lim: Limits, s: State, item: Item)
    requires ContentSearch(lim)
    ensures var s' := EmitMatch(lim, s, item);
            && (s.responseLimitReached ==> s'.responseLimitReached)
            && s'.fastTailActive == s.fastTailActive && (s'.stop ==> s.stop || s'.responseLimitReached)
            && (s.stop ==> s'.stop) && s'.skipped == s.skipped
            && (s'.matches == [] ==> s.matches == [] && s'.responseBytesEstimate == s.responseBytesEstimate)
            && (s'.responseLimitReached ||
                (s'.truncated == s.truncated && ItemCores(s'.matches) == ItemCores(s.matches) + [item.core]))
  {
  }

  lemma {:induction false} FlushKeepsFlags(lim: Limits, s: State, pending: seq<Pending>, completeOnly: bool)
    requires ContentSearch(lim)
    ensures var s' := Flush(lim, s, pending, completeOnly).0;
            && (s.responseLimitReached ==> s'.responseLimitReached)
            && s'.fastTailActive == s.fastTailActive && (s'.stop ==> s.stop || s'.responseLimitReached)
            && (s.stop ==> s'.stop) && s'.skipped == s.skipped
            && (s'.responseLimitReached || s'.truncated == s.truncated)
            && (s'.matches == [] ==> s.matches == [] && s'.responseBytesEstimate == s.responseBytesEstimate)
    decreases |pending|
  {
    if pending != [] {
      if completeOnly && |pending[0].after| < lim.contextLines {
        FlushKeepsFlags(lim, s, pending[1..], completeOnly);
      } else {
        var item := Finished(pending[0]);
        EmitKeepsCores(lim, s, item);
        FlushKeepsFlags(lim, EmitMatch(lim, s, item), pending[1..], completeOnly);
      }
    }
  }

  /** What stays pending is the end of what was pending. */
  lemma {:induction false} FlushKeepsEnd(lim: Limits, s: State, pending: seq<Pending>, completeOnly: bool)
    requires Descending(pending)
    ensures var kept := Flush(lim, s, pending, completeOnly).1;
            && Descending(kept) && |kept| <= |pending|
            && (forall i :: 0 <= i < |kept| ==> kept[i] == pending[|pending| - |kept| + i])
    decreases |pending|
  {
    if pending != [] {
      if completeOnly && |pending[0].after| < lim.contextLines {
        KeepAllIncomplete(lim, s, pending);
      } else {
        FlushKeepsEnd(lim, EmitMatch(lim, s, Finished(pending[0])), pending[1..], completeOnly);
      }
    }
  }

  lemma {:induction false} FlushKeepsList(lim: Limits, s: State, pending: seq<Pending>, completeOnly: bool)
    requires ContentSearch(lim) && Descending(pending)
    ensures var (s', kept) := Flush(lim, s, pending, completeOnly);
            s'.responseLimitReached
            || ItemCores(s'.matches) + PendingCores(kept) == ItemCores(s.matches) + PendingCores(pending)
    decreases |pending|
  {
    if pending != [] {
      if completeOnly && |pending[0].after| < lim.contextLines {
        KeepAllIncomplete(lim, s, pending);
      } else {
        var item := Finished(pending[0]);
        EmitKeepsCores(lim, s, item);
        FlushKeepsFlags(lim, EmitMatch(lim, s, item), pending[1..], completeOnly);
        FlushKeepsList(lim, EmitMatch(lim, s, item), pending[1..], completeOnly);
        assert PendingCores(pending) == [item.core] + PendingCores(pending[1..]);
      }
    }
  }

  lemma FlushKeepsCores(lim: Limits, s: State, pending: seq<Pending>, completeOnly: bool)
    requires ContentSearch(lim) && Descending(pending)
    ensures var (s', kept) := Flush(lim, s, pending, completeOnly);
            && (s.responseLimitReached ==> s'.responseLimitReached)
            && s'.fastTailActive == s.fastTailActive && (s'.stop ==> s.stop || s'.responseLimitReached)
            && (s.stop ==> s'.stop) && s'.skipped == s.skipped
            && (s'.matches == [] ==> s.matches == [] && s'.responseBytesEstimate == s.responseBytesEstimate)
            && (s'.responseLimitReached ||
                (s'.truncated == s.truncated
                 && ItemCores(s'.matches) + PendingCores(kept) == ItemCores(s.matches) + PendingCores(pending)))
            && Descending(kept) && |kept| <= |pending|
            && (forall i :: 0 <= i < |kept| ==> kept[i] == pending[|pending| - |kept| + i])
  {
    FlushKeepsFlags(lim, s, pending, completeOnly);
    FlushKeepsEnd(lim, s, pending, completeOnly);
    FlushKeepsList(lim, s, pending, completeOnly);
  }

  lemma {:induction false} KeepAllIncomplete(lim: Limits, s: State, pending: seq<Pending>)
    requires forall i :: 0 <= i < |pending| ==> |pending[i].after| < lim.contextLines
    ensures Flush(lim, s, pending, true) == (s, pending)
    decreases |pending|
  {
    if pending != [] {
      KeepAllIncomplete(lim, s, pending[1..]);
      assert [pending[0]] + pending[1..] == pending;
    }
  }

  lemma LineArrivesPaged(lim: Limits, scan: Scan, text: string, base: seq<Core>, raw: seq<Core>)
    requires ContentSearch(lim) && ScanPaged(lim, scan, base, raw)
    ensures ScanPaged(lim, LineArrives(lim, scan, text), base, raw)
  {
    if lim.contextLines != 0 {
      var withLine := WithLine(lim, scan.pending, text);
      assert PendingCores(withLine) == PendingCores(scan.pending);
      FlushKeepsCores(lim, scan.state, withLine, true);
      SameLength(lim, scan.state, withLine, true);
    }
  }

  /** Flushing moves results from the pending ones to the others. */
  lemma SameLength(lim: Limits, s: State, pending: seq<Pending>, completeOnly: bool)
    requires ContentSearch(lim) && Descending(pending)
    ensures var (s', kept) := Flush(lim, s, pending, completeOnly);
            s'.responseLimitReached || |s'.matches| + |kept| == |s.matches| + |pending|
  {
    FlushKeepsList(lim, s, pending, completeOnly);
    var (s', kept) := Flush(lim, s, pending, completeOnly);
    assert |ItemCores(s'.matches) + PendingCores(kept)| == |s'.matches| + |kept|;
    assert |ItemCores(s.matches) + PendingCores(pending)| == |s.matches| + |pending|;
  }

  lemma CappedGrows(lim: Limits, base: seq<Core>, raw: seq<Core>, core: Core)
    ensures base + Capped(lim, raw + [core]) ==
              base + Capped(lim, raw) + (if |raw| < lim.maxMatchesPerFile then [core] else [])
  {
  }

  /** A match becomes the next result, or waits for its context as the next one. */
  lemma TakePaged(lim: Limits, scan: Scan, core: Core, seen: seq<Core>)
    requires ContentSearch(lim) && Sliced(lim, scan.state, scan.pending, seen) && Descending(scan.pending)
    requires !scan.state.fastTailActive && core.query < |scan.state.queryCounts|
    requires lim.contextLines == 0 ==> scan.pending == []
    requires Filter(lim, scan.state, scan.tracker, core, |scan.pending|).verdict == Take
    ensures var (next, stop) := OnFound(lim, scan, core);
            && Paged(lim, next.state, next.pending, seen + [core]) && Descending(next.pending)
            && (lim.contextLines == 0 ==> next.pending == []) && !next.state.fastTailActive
            && (stop ==> next.state.stop) && next.tracker.matchCount == scan.tracker.matchCount + 1
  {
    TakenIsNext(lim, scan.state, scan.tracker, core, scan.pending, seen);
    if lim.contextLines == 0 {
      EmitSliced(lim, scan.state, scan.tracker, core, Item(core, None, None, false, false), seen);
    } else {
      var (next, _) := OnFound(lim, scan, core);
      assert PendingCores(next.pending) == PendingCores(scan.pending) + [core];
      assert ItemCores(next.state.matches) + PendingCores(next.pending)
          == (ItemCores(scan.state.matches) + PendingCores(scan.pending)) + [core];
    }
  }

  lemma OnFoundPaged(lim: Limits, scan: Scan, core: Core, base: seq<Core>, raw: seq<Core>)
    requires ContentSearch(lim) && ScanPaged(lim, scan, base, raw) && core.query < |scan.state.queryCounts|
    requires scan.tracker.matchCount == |raw|
    ensures var (next, stop) := OnFound(lim, scan, core);
            && ScanPaged(lim, next, base, raw + [core])
            && (stop ==> next.state.stop) && next.tracker.matchCount == |raw| + 1
  {
    var seen := base + Capped(lim, raw);
    CappedGrows(lim, base, raw, core);
    if |raw| < lim.maxMatchesPerFile && Sliced(lim, scan.state, scan.pending, seen) {
      FilterSliced(lim, scan.state, scan.tracker, core, scan.pending, seen);
      if Filter(lim, scan.state, scan.tracker, core, |scan.pending|).verdict == Take {
        TakePaged(lim, scan, core, seen);
      }
    }
  }

  lemma {:induction false} OnFoundsPaged(lim: Limits, scan: Scan, path: string, line: nat, query: nat,
                                         founds: seq<Found>, base: seq<Core>, raw: seq<Core>)
    requires ContentSearch(lim) && ScanPaged(lim, scan, base, raw) && query < |scan.state.queryCounts|
    requires scan.tracker.matchCount == |raw|
    ensures ScanPaged(lim, OnFounds(lim, scan, path, line, query, founds), base,
                      raw + LineCores(path, line, query, founds))
    decreases |founds|
  {
    if founds == [] {
      assert raw + LineCores(path, line, query, founds) == raw;
    } else {
      var core := Core(path, line, query, founds[0]);
      OnFoundPaged(lim, scan, core, base, raw);
      OnFoundKeepsQueries(lim, scan, core);
      var (next, stop) := OnFound(lim, scan, core);
      var rest := LineCores(path, line, query, founds[1..]);
      assert LineCores(path, line, query, founds) == [core] + rest;
      assert raw + ([core] + rest) == (raw + [core]) + rest;
      if stop {
        StoppedScanIsFinal(lim, next, base, raw + [core], rest);
      } else {
        OnFoundsPaged(lim, next, path, line, query, founds[1..], base, raw + [core]);
      }
    }
  }

  lemma OnLinePaged(lim: Limits, scan: Scan, path: string, number: nat, query: nat, line: Line, base: seq<Core>,
                    raw: seq<Core>)
    requires ContentSearch(lim) && ScanPaged(lim, scan, base, raw) && query < |scan.state.queryCounts|
    requires !scan.state.stop
    ensures ScanPaged(lim, OnLine(lim, scan, path, number, query, line), base,
                      raw + LineCores(path, number, query, FoundsOf(line, query)))
  {
    LineArrivesPaged(lim, scan, line.text, base, raw);
    FlushKeepsQueries(lim, scan.state, WithLine(lim, scan.pending, line.text), true);
    OnFoundsPaged(lim, LineArrives(lim, scan, line.text), path, number, query, FoundsOf(line, query), base, raw);
  }

  lemma {:induction false} OnLinesPaged(lim: Limits, scan: Scan, file: File, query: nat, n: nat, base: seq<Core>,
                                        raw: seq<Core>)
    requires ContentSearch(lim) && ScanPaged(lim, scan, base, raw) && query < |scan.state.queryCounts|
    requires n <= |file.lines|
    ensures ScanPaged(lim, OnLines(lim, scan, file, query, n), base, raw + LinesCores(file, query, n))
    decreases |file.lines| - n
  {
    if n == |file.lines| {
      assert raw + [] == raw;
    } else if scan.state.stop {
      StoppedScanIsFinal(lim, scan, base, raw, LinesCores(file, query, n));
    } else {
      var next, more := LineFurther(lim, scan, file, query, n, base, raw);
      OnLinesPaged(lim, next, file, query, n + 1, base, more);
    }
  }

  /** One line further. */
  lemma LineFurther(lim: Limits, scan: Scan, file: File, query: nat, n: nat, base: seq<Core>, raw: seq<Core>)
    returns (next: Scan, more: seq<Core>)
    requires ContentSearch(lim) && ScanPaged(lim, scan, base, raw) && query < |scan.state.queryCounts|
    requires n < |file.lines| && !scan.state.stop
    ensures ScanPaged(lim, next, base, more) && query < |next.state.queryCounts|
    ensures OnLines(lim, scan, file, query, n) == OnLines(lim, next, file, query, n + 1)
    ensures raw + LinesCores(file, query, n) == more + LinesCores(file, query, n + 1)
  {
    var cores := LineCores(file.path, n + 1, query, FoundsOf(file.lines[n], query));
    next, more := OnLine(lim, scan, file.path, n + 1, query, file.lines[n]), raw + cores;
    OnLinePaged(lim, scan, file.path, n + 1, query, file.lines[n], base, raw);
    OnLineKeepsQueries(lim, scan, file.path, n + 1, query, file.lines[n]);
    assert raw + (cores + LinesCores(file, query, n + 1)) == more + LinesCores(file, query, n + 1);
  }

  lemma OnQueryPaged(lim: Limits, s: State, t: Tracker, file: File, query: nat, base: seq<Core>, raw: seq<Core>)
    requires ContentSearch(lim) && ScanPaged(lim, Scan(s, t, [], []), base, raw) && query < |s.queryCounts|
    ensures var (s', t') := OnQuery(lim, s, t, file, query);
            ScanPaged(lim, Scan(s', t', [], []), base, raw + LinesCores(file, query, 0))
  {
    OnLinesPaged(lim, Scan(s, t, [], []), file, query, 0, base, raw);
    EndPaged(lim, OnLines(lim, Scan(s, t, [], []), file, query, 0), base, raw + LinesCores(file, query, 0));
  }

  lemma EndPaged(lim: Limits, scan: Scan, base: seq<Core>, raw: seq<Core>)
    requires ContentSearch(lim) && ScanPaged(lim, scan, base, raw)
    ensures var s' := if lim.contextLines == 0 then scan.state else Flush(lim, scan.state, scan.pending, false).0;
            ScanPaged(lim, Scan(s', scan.tracker, [], []), base, raw)
  {
    FlushKeepsCores(lim, scan.state, scan.pending, false);
    SameLength(lim, scan.state, scan.pending, false);
    FlushAllKeepsNothing(lim, scan.state, scan.pending);
  }

  lemma {:induction false} OnQueriesPaged(lim: Limits, s: State, t: Tracker, file: File, q: nat, base: seq<Core>,
                                          raw: seq<Core>)
    requires ContentSearch(lim) && ScanPaged(lim, Scan(s, t, [], []), base, raw) && q <= |s.queryCounts|
    ensures var s' := OnQueries(lim, s, t, file, q);
            && Paged(lim, s', [], base + Capped(lim, raw + QueriesCores(file, |s.queryCounts|, q)))
            && |s'.queryCounts| == |s.queryCounts| && !s'.fastTailActive
    decreases |s.queryCounts| - q
  {
    if q == |s.queryCounts| {
      assert raw + [] == raw;
    } else if s.stop {
      StoppedScanIsFinal(lim, Scan(s, t, [], []), base, raw, QueriesCores(file, |s.queryCounts|, q));
    } else {
      var cores := LinesCores(file, q, 0);
      OnQueryPaged(lim, s, t, file, q, base, raw);
      OnQueryKeepsQueries(lim, s, t, file, q);
      var (s', t') := OnQuery(lim, s, t, file, q);
      OnQueriesPaged(lim, s', t', file, q + 1, base, raw + cores);
      assert raw + (cores + QueriesCores(file, |s.queryCounts|, q + 1))
          == (raw + cores) + QueriesCores(file, |s.queryCounts|, q + 1);
    }
  }

  lemma OnFilePaged(lim: Limits, s: State, file: File, base: seq<Core>)
    requires ContentSearch(lim) && Paged(lim, s, [], base) && !s.fastTailActive
    ensures var s' := OnFile(lim, s, file);
            && Paged(lim, s', [], base + Capped(lim, QueriesCores(file, |s.queryCounts|, 0)))
            && |s'.queryCounts| == |s.queryCounts| && !s'.fastTailActive
  {
    assert base + Capped(lim, []) == base;
    assert [] + QueriesCores(file, |s.queryCounts|, 0) == QueriesCores(file, |s.queryCounts|, 0);
    OnQueriesPaged(lim, s, Tracker(0, false), file, 0, base, []);
  }

  lemma {:induction false} OnFilesPaged(lim: Limits, s: State, files: seq<File>, n: nat, base: seq<Core>)
    requires ContentSearch(lim) && Paged(lim, s, [], base) && !s.fastTailActive && n <= |files|
    ensures Paged(lim, OnFiles(lim, s, files, n), [], base + AllMatches(lim, |s.queryCounts|, files, n))
    decreases |files| - n
  {
    if n == |files| {
      assert base + [] == base;
    } else if s.stop {
      CutPageIsFinal(lim, s, [], base, AllMatches(lim, |s.queryCounts|, files, n));
    } else {
      var cores := Capped(lim, QueriesCores(files[n], |s.queryCounts|, 0));
      var rest := AllMatches(lim, |s.queryCounts|, files, n + 1);
      OnFilePaged(lim, s, files[n], base);
      OnFilesPaged(lim, OnFile(lim, s, files[n]), files, n + 1, base + cores);
      assert base + (cores + rest) == (base + cores) + rest;
    }
  }

  /** Short of the response limit, and at it as well without context lines, a search lists a slice of all matches. */
  lemma SearchIsPaged(lim: Limits, queries: nat, files: seq<File>)
    requires ContentSearch(lim)
    ensures Paged(lim, Search(lim, queries, files), [], AllMatches(lim, queries, files, 0))
  {
    OnFilesPaged(lim, Initial(queries), files, 0, []);
    assert [] + AllMatches(lim, queries, files, 0) == AllMatches(lim, queries, files, 0);
  }

  /** What a page promises about the list of all matches. */
  ghost predicate IsPage(lim: Limits, r: State, all: seq<Core>) {
    && ItemCores(r.matches) == Page(all, lim.cursor, |r.matches|) && |r.matches| <= lim.maxResults
    && (r.truncated <==> lim.cursor + |r.matches| < |all|)
    && (!r.responseLimitReached ==>
          && ItemCores(r.matches) == Page(all, lim.cursor, lim.maxResults)
          && (r.truncated <==> lim.cursor + lim.maxResults < |all|))
    && (ItemsFit(lim) && 1 <= lim.maxResults && r.truncated ==> r.matches != [])
  }

  lemma SliceIsPage(lim: Limits, s: State, all: seq<Core>)
    requires Sliced(lim, s, [], all)
    ensures IsPage(lim, s, all)
  {
    assert ItemCores(s.matches) + PendingCores([]) == ItemCores(s.matches);
    assert |ItemCores(s.matches)| == |s.matches|;
    if !s.truncated {
      assert Page(all, lim.cursor, |s.matches|) == Page(all, lim.cursor, lim.maxResults);
    }
  }

  /** Of the limits only the cap per file decides which matches can be listed. */
  lemma {:induction false} MatchesDependOnCap(a: Limits, b: Limits, queries: nat, files: seq<File>, n: nat)
    requires n <= |files| && a.maxMatchesPerFile == b.maxMatchesPerFile
    ensures AllMatches(a, queries, files, n) == AllMatches(b, queries, files, n)
    decreases |files| - n
  {
    if n < |files| {
      MatchesDependOnCap(a, b, queries, files, n + 1);
    }
  }

  // ----- following the next cursor -----

  function At(lim: Limits, cursor: nat): Limits {
    lim.(cursor := cursor)
  }

  /**
   All results a caller gathers from up to `pages` pages, each at the `next_cursor` of the one before, which is
   the place behind its results and is given while the page is cut.
   */
  function Follow(search: nat -> State, cursor: nat, pages: nat): seq<Core>
    decreases pages
  {
    if pages == 0 then []
    else
      var r := search(cursor);
      if !r.truncated then ItemCores(r.matches)
      else ItemCores(r.matches) + Follow(search, cursor + |r.matches|, pages - 1)
  }

  lemma PagesJoin(cores: seq<Core>, cursor: nat, size: nat)
    requires cursor + size < |cores|
    ensures Page(cores, cursor, size) + Page(cores, cursor + size, |cores|) == Page(cores, cursor, |cores|)
  {
  }

  /** A page at any cursor is a slice of the list, and one that is cut holds some result. */
  ghost predicate GivesPages(search: nat -> State, all: seq<Core>) {
    forall cursor: nat :: IsPageAt(search, all, cursor)
  }

  ghost predicate IsPageAt(search: nat -> State, all: seq<Core>, cursor: nat) {
    var r := search(cursor);
    && ItemCores(r.matches) == Page(all, cursor, |r.matches|)
    && (r.truncated <==> cursor + |r.matches| < |all|) && (r.truncated ==> r.matches != [])
  }

  /** Following the cursor lists every remaining match exactly once, in order; each page makes progress. */
  lemma {:induction false} FollowingListsEverything(search: nat -> State, all: seq<Core>, cursor: nat, pages: nat)
    requires GivesPages(search, all) && |all| < cursor + pages
    ensures Follow(search, cursor, pages) == Page(all, cursor, |all|)
    decreases pages
  {
    if pages != 0 {
      var r := search(cursor);
      assert IsPageAt(search, all, cursor) && |ItemCores(r.matches)| == |r.matches|;
      SliceAndRest(all, cursor, |r.matches|, ItemCores(r.matches));
      if r.truncated {
        FollowingListsEverything(search, all, cursor + |r.matches|, pages - 1);
      }
    }
  }

  lemma SliceAndRest(all: seq<Core>, cursor: nat, n: nat, slice: seq<Core>)
    requires slice == Page(all, cursor, n) && |slice| == n
    ensures cursor + n < |all| ==> slice + Page(all, cursor + n, |all|) == Page(all, cursor, |all|)
    ensures |all| <= cursor + n ==> slice == Page(all, cursor, |all|)
  {
    if cursor + n < |all| {
      PagesJoin(all, cursor, n);
    }
  }

  predicate Listing(lim: Limits) {
    !lim.filesOnly && !lim.countOnly && (lim.exactTotalFastTail ==> lim.calculateTotal) && 1 <= lim.maxResults
  }

  lemma PageMakesProgress(lim: Limits, r: State, all: seq<Core>)
    requires IsPage(lim, r, all) && 1 <= lim.maxResults && (ItemsFit(lim) || !r.responseLimitReached)
    ensures r.truncated ==> r.matches != []
  {
    assert |ItemCores(r.matches)| == |r.matches|;
  }
}
