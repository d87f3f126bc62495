/** What the results of a search over prepared lines show: the context their lines came with, cut line by line. */
module SearchPreparedItems {
  import opened Options
  import opened SearchScan
  import opened SearchFastTail
  import opened SearchPaging
  import opened SearchPreparedPaging

  // ----- the item of a match -----

  /** The lines are shown one by one, each cut to its limit. */
  predicate ShowsLines(lim: Limits, lines: seq<string>, shown: Option<seq<string>>) {
    && shown.Some? && |shown.value| == |lines|
    && forall j :: 0 <= j < |lines| ==> shown.value[j] == lim.bound(lines[j]).0
  }

  predicate SomeLineCut(lim: Limits, lines: seq<string>) {
    exists j :: 0 <= j < |lines| && lim.bound(lines[j]).1
  }

  predicate IsMatchOf(p: Prepared, core: Core) {
    core.path == p.path && core.line == p.line && core.query == p.query && core.found in p.founds
  }

  /** The item of a match of a prepared line, with the lines before and after it if context is asked for. */
  predicate IsWhole(lim: Limits, p: Prepared, item: Item) {
    && IsMatchOf(p, item.core) && !item.contextOmitted
    && if lim.contextLines == 0 then item.before.None? && item.after.None? && !item.contextTruncated
       else
         && ShowsLines(lim, p.before, item.before) && ShowsLines(lim, p.after, item.after)
         && (item.contextTruncated <==> SomeLineCut(lim, p.before) || SomeLineCut(lim, p.after))
  }

  /** The item as it is listed first when it is too large alone. */
  predicate IsWithoutContext(lim: Limits, whole: Item, item: Item) {
    && lim.responseBytesLimit < lim.size(whole) && (whole.before.Some? || whole.after.Some?)
    && item == whole.(before := None, after := None, contextOmitted := true)
  }

  /** The item is what a response shows of a match of the line: whole, or without context as its first result. */
  ghost predicate IsListed(lim: Limits, p: Prepared, item: Item, first: bool) {
    || (IsWhole(lim, p, item) && (first ==> lim.size(item) <= lim.responseBytesLimit))
    || (first && exists whole :: IsWhole(lim, p, whole) && IsWithoutContext(lim, whole, item))
  }

  function TotalSize(lim: Limits, items: seq<Item>): nat {
    if items == [] then 0 else TotalSize(lim, items[..|items| - 1]) + lim.size(items[|items| - 1])
  }

  /** Every result shows a match of some line, and all of them fit the response. */
  ghost predicate ShowsItems(lim: Limits, lines: seq<Prepared>, s: State) {
    && (forall i :: 0 <= i < |s.matches| ==>
          exists n :: 0 <= n < |lines| && IsListed(lim, lines[n], s.matches[i], i == 0))
    && s.responseBytesEstimate == TotalSize(lim, s.matches) <= lim.responseBytesLimit
  }

  /** The next match, as an item of its line, does not fit behind the results. */
  ghost predicate NextDoesNotFit(lim: Limits, lines: seq<Prepared>, s: State, core: Core) {
    exists n, whole ::
      && 0 <= n < |lines| && IsWhole(lim, lines[n], whole) && whole.core == core
      && lim.responseBytesLimit < TotalSize(lim, s.matches) + lim.size(whole)
      && (s.matches == [] ==> forall item :: IsWithoutContext(lim, whole, item) ==>
                                lim.responseBytesLimit < lim.size(item))
  }

  /** What is known of the response once the matches `seen` have been seen. */
  ghost predicate Shown(lim: Limits, lines: seq<Prepared>, s: State, seen: seq<Core>) {
    && ShowsItems(lim, lines, s)
    && (s.responseLimitReached ==>
          && lim.cursor + |s.matches| < |seen|
          && NextDoesNotFit(lim, lines, s, seen[lim.cursor + |s.matches|]))
  }

  // ----- one match -----

  lemma PreparedItemIsWhole(lim: Limits, core: Core, p: Prepared)
    requires IsMatchOf(p, core)
    ensures IsWhole(lim, p, PreparedItem(lim, core, p)) && PreparedItem(lim, core, p).core == core
  {
  }

  lemma ShownFurther(lim: Limits, lines: seq<Prepared>, s: State, s': State, seen: seq<Core>, more: seq<Core>)
    requires Shown(lim, lines, s, seen)
    requires s'.matches == s.matches && s'.responseBytesEstimate == s.responseBytesEstimate
    requires s'.responseLimitReached == s.responseLimitReached
    ensures Shown(lim, lines, s', seen + more)
  {
    if s.responseLimitReached {
      assert (seen + more)[lim.cursor + |s.matches|] == seen[lim.cursor + |s.matches|];
    }
  }

  lemma OneMoreShown(lim: Limits, lines: seq<Prepared>, s: State, s': State, n: nat, item: Item)
    requires ShowsItems(lim, lines, s) && n < |lines| && IsListed(lim, lines[n], item, s.matches == [])
    requires s'.matches == s.matches + [item]
    requires s'.responseBytesEstimate == s.responseBytesEstimate + lim.size(item) <= lim.responseBytesLimit
    ensures ShowsItems(lim, lines, s')
  {
    assert s'.matches[..|s.matches|] == s.matches;
    forall i | 0 <= i < |s'.matches|
      ensures exists m :: 0 <= m < |lines| && IsListed(lim, lines[m], s'.matches[i], i == 0)
    {
      if i < |s.matches| {
        assert s'.matches[i] == s.matches[i];
      } else {
        assert IsListed(lim, lines[n], s'.matches[i], i == 0);
      }
    }
  }

  lemma EmitShown(lim: Limits, lines: seq<Prepared>, n: nat, s: State, item: Item, seen: seq<Core>)
    requires ShowsItems(lim, lines, s) && !s.responseLimitReached && n < |lines| && IsWhole(lim, lines[n], item)
    requires lim.cursor + |s.matches| == |seen|
    ensures Shown(lim, lines, EmitMatch(lim, s, item), seen + [item.core])
  {
    var s', fitted := EmitMatch(lim, s, item), Fitted(lim, s, item);
    if lim.responseBytesLimit < s.responseBytesEstimate + lim.size(fitted) {
      assert s'.matches == s.matches && s'.responseBytesEstimate == s.responseBytesEstimate;
      assert NextDoesNotFit(lim, lines, s', item.core);
    } else {
      FittedIsListed(lim, lines[n], s, item);
      OneMoreShown(lim, lines, s, s', n, fitted);
    }
  }

  lemma FittedIsListed(lim: Limits, p: Prepared, s: State, item: Item)
    requires IsWhole(lim, p, item)
    requires s.responseBytesEstimate + lim.size(Fitted(lim, s, item)) <= lim.responseBytesLimit
    ensures IsListed(lim, p, Fitted(lim, s, item), s.matches == [])
  {
    if Fitted(lim, s, item) != item {
      assert IsWithoutContext(lim, item, Fitted(lim, s, item));
    }
  }

  lemma FilterShowsSame(lim: Limits, s: State, t: Tracker, core: Core)
    requires ContentSearch(lim) && !s.fastTailActive && core.query < |s.queryCounts|
    ensures var f := Filter(lim, s, t, core, 0);
            && f.state.matches == s.matches && f.state.responseBytesEstimate == s.responseBytesEstimate
            && f.state.responseLimitReached == s.responseLimitReached
            && (f.verdict == Take ==> !s.responseLimitReached)
  {
  }

  lemma FoundShown(lim: Limits, lines: seq<Prepared>, m: nat, s: State, t: Tracker, core: Core, seen: seq<Core>)
    requires ContentSearch(lim) && Sliced(lim, s, [], seen) && Shown(lim, lines, s, seen) && !s.fastTailActive
    requires m < |lines| && IsMatchOf(lines[m], core) && core.query < |s.queryCounts|
    ensures Shown(lim, lines, OnPreparedFound(lim, s, t, lines[m], core).state,
                  seen + (if t.matchCount < lim.maxMatchesPerFile then [core] else []))
  {
    var f := Filter(lim, s, t, core, 0);
    FilterShowsSame(lim, s, t, core);
    if f.verdict == Take {
      TakenIsNext(lim, s, t, core, [], seen);
      PreparedItemIsWhole(lim, core, lines[m]);
      EmitShown(lim, lines, m, f.state, PreparedItem(lim, core, lines[m]), seen);
    } else {
      ShownFurther(lim, lines, s, f.state, seen, if t.matchCount < lim.maxMatchesPerFile then [core] else []);
    }
  }

  // ----- the loops -----

  lemma {:induction false} FoundsShown(lim: Limits, lines: seq<Prepared>, m: nat, s: State, t: Tracker, n: nat,
                                       seen: seq<Core>, end: State, all: seq<Core>)
    requires ContentSearch(lim) && Sliced(lim, s, [], seen) && !s.fastTailActive && !s.stop
    requires m < |lines| && lines[m].query < |s.queryCounts| && n <= |lines[m].founds| && Shown(lim, lines, s, seen)
    requires end == OnPreparedFounds(lim, s, t, lines[m], n).0
    requires all == seen + BelowCap(lim, t.matchCount, CoresFrom(lines[m], n))
    ensures Shown(lim, lines, end, all)
    decreases |lines[m].founds| - n
  {
    if n == |lines[m].founds| {
      assert all == seen;
    } else {
      var f, longer := FoundShownFurther(lim, lines, m, s, t, n, seen);
      if f.verdict == Break {
        ShownFurther(lim, lines, f.state, f.state, longer, BelowCap(lim, t.matchCount + 1, CoresFrom(lines[m], n + 1)));
      } else {
        FoundsShown(lim, lines, m, f.state, f.tracker, n + 1, longer, end, all);
      }
    }
  }

  lemma FoundShownFurther(lim: Limits, lines: seq<Prepared>, m: nat, s: State, t: Tracker, n: nat, seen: seq<Core>)
    returns (f: Filtered, longer: seq<Core>)
    requires ContentSearch(lim) && Sliced(lim, s, [], seen) && !s.fastTailActive && !s.stop
    requires m < |lines| && lines[m].query < |s.queryCounts| && n < |lines[m].founds| && Shown(lim, lines, s, seen)
    ensures Sliced(lim, f.state, [], longer) && Shown(lim, lines, f.state, longer) && !f.state.fastTailActive
    ensures (f.state.stop <==> f.verdict == Break) && f.tracker.matchCount == t.matchCount + 1
    ensures |f.state.queryCounts| == |s.queryCounts|
    ensures var p := lines[m];
            OnPreparedFounds(lim, s, t, p, n) ==
              if f.verdict == Break then (f.state, f.tracker) else OnPreparedFounds(lim, f.state, f.tracker, p, n + 1)
    ensures seen + BelowCap(lim, t.matchCount, CoresFrom(lines[m], n))
         == longer + BelowCap(lim, t.matchCount + 1, CoresFrom(lines[m], n + 1))
  {
    FoundShown(lim, lines, m, s, t, Core(lines[m].path, lines[m].line, lines[m].query, lines[m].founds[n]), seen);
    f, longer := PreparedFoundFurther(lim, s, t, lines[m], n, seen);
  }

  lemma {:induction false} LinesShown(lim: Limits, g: Ingest, counts: map<string, nat>, lines: seq<Prepared>, n: nat,
                                      seen: seq<Core>, end: State, all: seq<Core>)
    requires ContentSearch(lim) && Sliced(lim, g.state, [], seen) && !g.state.fastTailActive
    requires n <= |lines| && QueriesExist(lines, |g.state.queryCounts|) && Shown(lim, lines, g.state, seen)
    requires g.state.stop || Counted(g.trackers, counts)
    requires end == OnPreparedLines(lim, g, lines, n).state
    requires all == seen + PreparedMatches(lim, counts, lines, n)
    ensures Shown(lim, lines, end, all)
    decreases |lines| - n
  {
    if n == |lines| {
      assert all == seen;
    } else if g.state.stop {
      ShownFurther(lim, lines, g.state, g.state, seen, PreparedMatches(lim, counts, lines, n));
    } else {
      var next, more, longer := LineShownFurther(lim, g, counts, lines, n, seen);
      LinesShown(lim, next, more, lines, n + 1, longer, end, all);
    }
  }

  lemma LineShownFurther(lim: Limits, g: Ingest, counts: map<string, nat>, lines: seq<Prepared>, n: nat,
                         seen: seq<Core>)
    returns (next: Ingest, more: map<string, nat>, longer: seq<Core>)
    requires ContentSearch(lim) && Sliced(lim, g.state, [], seen) && !g.state.fastTailActive && !g.state.stop
    requires n < |lines| && QueriesExist(lines, |g.state.queryCounts|) && Shown(lim, lines, g.state, seen)
    requires Counted(g.trackers, counts)
    ensures Sliced(lim, next.state, [], longer) && Shown(lim, lines, next.state, longer) && !next.state.fastTailActive
    ensures |next.state.queryCounts| == |g.state.queryCounts| && (next.state.stop || Counted(next.trackers, more))
    ensures OnPreparedLines(lim, g, lines, n) == OnPreparedLines(lim, next, lines, n + 1)
    ensures seen + PreparedMatches(lim, counts, lines, n) == longer + PreparedMatches(lim, more, lines, n + 1)
  {
    LineShown(lim, g, counts, lines, n, seen);
    next, more, longer := PreparedLineFurther(lim, g, counts, lines, n, seen);
  }

  lemma LineShown(lim: Limits, g: Ingest, counts: map<string, nat>, lines: seq<Prepared>, n: nat, seen: seq<Core>)
    requires ContentSearch(lim) && Sliced(lim, g.state, [], seen) && !g.state.fastTailActive && !g.state.stop
    requires n < |lines| && QueriesExist(lines, |g.state.queryCounts|) && Shown(lim, lines, g.state, seen)
    requires Counted(g.trackers, counts)
    ensures Shown(lim, lines, OnPrepared(lim, g, lines[n]).state,
                  seen + MatchesOf(lim, CountOf(counts, lines[n].path), lines[n]))
  {
    var t := TrackerOf(g.trackers, lines[n].path);
    assert lines[n].founds[0..] == lines[n].founds;
    FoundsShown(lim, lines, n, g.state, t, 0, seen, OnPreparedFounds(lim, g.state, t, lines[n], 0).0,
                seen + BelowCap(lim, t.matchCount, CoresFrom(lines[n], 0)));
  }

  // ----- the search -----

  /**
   Every result of a search over prepared lines shows a match of one of the lines with the context that came with
   it, all of them together fit the response, and if the response is limited, the match behind them does not fit.
   */
  lemma PreparedSearchShowsItems(lim: Limits, queries: nat, lines: seq<Prepared>)
    requires !lim.filesOnly && !lim.countOnly && (lim.exactTotalFastTail ==> lim.calculateTotal)
    requires QueriesExist(lines, queries)
    ensures Shown(lim, lines, PreparedSearch(lim, queries, lines), PreparedMatches(lim, map[], lines, 0))
  {
    var slow, all := lim.(exactTotalFastTail := false), PreparedMatches(lim, map[], lines, 0);
    if lim.calculateTotal {
      FastTailIsInvisibleForPreparedLines(lim, queries, lines);
      assert lim == lim.(exactTotalFastTail := true) || lim == slow;
    }
    PreparedDependOnCap(lim, slow, map[], lines, 0);
    assert all == [] + all;
    LinesShown(slow, Ingest(Initial(queries), map[]), map[], lines, 0, [], PreparedSearch(slow, queries, lines), all);
    ShownUnder(slow, lim, lines, PreparedSearch(slow, queries, lines), PreparedSearch(lim, queries, lines), all);
  }

  /** The fast tail plays no part in what is shown. */
  lemma ShownUnder(slow: Limits, lim: Limits, lines: seq<Prepared>, s: State, r: State, all: seq<Core>)
    requires slow == lim.(exactTotalFastTail := false) && Shown(slow, lines, s, all)
    requires r.matches == s.matches && r.responseBytesEstimate == s.responseBytesEstimate
    requires r.responseLimitReached == s.responseLimitReached
    ensures Shown(lim, lines, r, all)
  {
    SizesAlike(slow, lim, s.matches);
    forall p, item, first | IsListed(slow, p, item, first)
      ensures IsListed(lim, p, item, first)
    {
      ListedAlike(slow, lim, p, item, first);
    }
    if r.responseLimitReached {
      NextAlike(slow, lim, lines, s, r, all[lim.cursor + |s.matches|]);
    }
  }

  lemma {:induction false} SizesAlike(a: Limits, b: Limits, items: seq<Item>)
    requires a.size == b.size
    ensures TotalSize(a, items) == TotalSize(b, items)
  {
    if items != [] {
      SizesAlike(a, b, items[..|items| - 1]);
    }
  }

  lemma ListedAlike(slow: Limits, lim: Limits, p: Prepared, item: Item, first: bool)
    requires slow == lim.(exactTotalFastTail := false) && IsListed(slow, p, item, first)
    ensures IsListed(lim, p, item, first)
  {
    if !(IsWhole(slow, p, item) && (first ==> slow.size(item) <= slow.responseBytesLimit)) {
      var whole :| IsWhole(slow, p, whole) && IsWithoutContext(slow, whole, item);
      assert IsWhole(lim, p, whole) && IsWithoutContext(lim, whole, item);
    }
  }

  lemma NextAlike(slow: Limits, lim: Limits, lines: seq<Prepared>, s: State, r: State, core: Core)
    requires slow == lim.(exactTotalFastTail := false) && NextDoesNotFit(slow, lines, s, core)
    requires r.matches == s.matches
    ensures NextDoesNotFit(lim, lines, r, core)
  {
    var n, whole :| 0 <= n < |lines| && IsWhole(slow, lines[n], whole) && whole.core == core
      && slow.responseBytesLimit < TotalSize(slow, s.matches) + slow.size(whole)
      && (s.matches == [] ==> forall item :: IsWithoutContext(slow, whole, item) ==>
                                slow.responseBytesLimit < slow.size(item));
    SizesAlike(slow, lim, s.matches);
    assert IsWhole(lim, lines[n], whole);
    forall item | s.matches == [] && IsWithoutContext(lim, whole, item)
      ensures lim.responseBytesLimit < lim.size(item)
    {
      assert IsWithoutContext(slow, whole, item);
    }
  }
}
