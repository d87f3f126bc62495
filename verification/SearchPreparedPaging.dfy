/** Pages of a search over lines that an external program has found, in whatever order they arrive. */
module SearchPreparedPaging {
  import opened Options
  import opened SearchScan
  import opened SearchFastTail
  import opened SearchPaging

  // ----- the full list of matches -----

  /** Of the next matches of a file those that are still below its cap, when `counted` have been counted. */
  function BelowCap(lim: Limits, counted: nat, cores: seq<Core>): seq<Core>
    decreases |cores|
  {
    if cores == [] || lim.maxMatchesPerFile <= counted then []
    else [cores[0]] + BelowCap(lim, counted + 1, cores[1..])
  }

  /** The matches of one line that count, when `counted` of its path have been counted. */
  function MatchesOf(lim: Limits, counted: nat, p: Prepared): seq<Core> {
    BelowCap(lim, counted, LineCores(p.path, p.line, p.query, p.founds))
  }

  function CountOf(counts: map<string, nat>, path: string): nat {
    if path in counts then counts[path] else 0
  }

  /** Every match of the lines from number `n` on, in their order, up to the cap of each path. */
  function PreparedMatches(lim: Limits, counts: map<string, nat>, lines: seq<Prepared>, n: nat): seq<Core>
    requires n <= |lines|
    decreases |lines| - n
  {
    if n == |lines| then []
    else
      var p, counted := lines[n], CountOf(counts, lines[n].path);
      MatchesOf(lim, counted, p) + PreparedMatches(lim, counts[p.path := counted + |p.founds|], lines, n + 1)
  }

  /** The cap is reached by cutting the list of matches of a path where it is full. */
  lemma {:induction false} BelowCapIsPrefix(lim: Limits, counted: nat, cores: seq<Core>)
    ensures BelowCap(lim, counted, cores) == cores[..Min(|cores|, Max(0, lim.maxMatchesPerFile - counted))]
    decreases |cores|
  {
    if cores != [] && counted < lim.maxMatchesPerFile {
      BelowCapIsPrefix(lim, counted + 1, cores[1..]);
    }
  }

  // ----- the loops -----

  lemma CoresOfRest(p: Prepared, n: nat)
    requires n < |p.founds|
    ensures LineCores(p.path, p.line, p.query, p.founds[n..])
         == [Core(p.path, p.line, p.query, p.founds[n])] + LineCores(p.path, p.line, p.query, p.founds[n + 1..])
  {
  }

  /** One match of a prepared line: seen, and taken up, passed over or met by a limit. */
  lemma PreparedFoundSliced(lim: Limits, s: State, t: Tracker, p: Prepared, core: Core, seen: seq<Core>)
    requires ContentSearch(lim) && Sliced(lim, s, [], seen) && !s.fastTailActive && !s.stop
    requires core.query < |s.queryCounts|
    ensures var f := OnPreparedFound(lim, s, t, p, core);
            && Sliced(lim, f.state, [], seen + (if t.matchCount < lim.maxMatchesPerFile then [core] else []))
            && !f.state.fastTailActive && (f.state.stop <==> f.verdict == Break)
            && f.tracker.matchCount == t.matchCount + 1
  {
    if t.matchCount < lim.maxMatchesPerFile {
      FilterSliced(lim, s, t, core, [], seen);
      if Filter(lim, s, t, core, 0).verdict == Take {
        TakenIsNext(lim, s, t, core, [], seen);
        EmitSliced(lim, s, t, core, PreparedItem(lim, core, p), seen);
      }
    } else {
      assert seen + [] == seen;
    }
  }

  lemma {:induction false} PreparedFoundsSliced(lim: Limits, s: State, t: Tracker, p: Prepared, n: nat, seen: seq<Core>)
    requires ContentSearch(lim) && Sliced(lim, s, [], seen) && !s.fastTailActive && !s.stop
    requires p.query < |s.queryCounts| && n <= |p.founds|
    ensures var (s', t') := OnPreparedFounds(lim, s, t, p, n);
            && Sliced(lim, s', [], seen + BelowCap(lim, t.matchCount, CoresFrom(p, n))) && !s'.fastTailActive
            && (s'.stop || t'.matchCount == t.matchCount + (|p.founds| - n))
    decreases |p.founds| - n
  {
    if n == |p.founds| {
      assert seen + [] == seen;
    } else {
      var f, longer := PreparedFoundFurther(lim, s, t, p, n, seen);
      if f.verdict == Break {
        CutSliceIsFinal(lim, f.state, [], longer, BelowCap(lim, t.matchCount + 1, CoresFrom(p, n + 1)));
      } else {
        PreparedFoundsSliced(lim, f.state, f.tracker, p, n + 1, longer);
      }
    }
  }

  function CoresFrom(p: Prepared, n: nat): seq<Core>
    requires n <= |p.founds|
  {
    LineCores(p.path, p.line, p.query, p.founds[n..])
  }

  lemma PreparedFoundFurther(lim: Limits, s: State, t: Tracker, p: Prepared, n: nat, seen: seq<Core>)
    returns (f: Filtered, longer: seq<Core>)
    requires ContentSearch(lim) && Sliced(lim, s, [], seen) && !s.fastTailActive && !s.stop
    requires p.query < |s.queryCounts| && n < |p.founds|
    ensures f == OnPreparedFound(lim, s, t, p, Core(p.path, p.line, p.query, p.founds[n]))
    ensures longer == seen + (if t.matchCount < lim.maxMatchesPerFile
                              then [Core(p.path, p.line, p.query, p.founds[n])] else [])
    ensures Sliced(lim, f.state, [], longer) && !f.state.fastTailActive && (f.state.stop <==> f.verdict == Break)
    ensures f.tracker.matchCount == t.matchCount + 1 && |f.state.queryCounts| == |s.queryCounts|
    ensures OnPreparedFounds(lim, s, t, p, n) ==
              if f.verdict == Break then (f.state, f.tracker) else OnPreparedFounds(lim, f.state, f.tracker, p, n + 1)
    ensures seen + BelowCap(lim, t.matchCount, CoresFrom(p, n))
         == longer + BelowCap(lim, t.matchCount + 1, CoresFrom(p, n + 1))
  {
    var core := Core(p.path, p.line, p.query, p.founds[n]);
    f := OnPreparedFound(lim, s, t, p, core);
    longer := seen + (if t.matchCount < lim.maxMatchesPerFile then [core] else []);
    CoresOfRest(p, n);
    PreparedFoundSliced(lim, s, t, p, core, seen);
    OnPreparedFoundKeepsQueries(lim, s, t, p, core);
    CapTakesHead(lim, t.matchCount, core, CoresFrom(p, n + 1), seen);
  }

  lemma CapTakesHead(lim: Limits, counted: nat, core: Core, rest: seq<Core>, seen: seq<Core>)
    ensures var more := if counted < lim.maxMatchesPerFile then [core] else [];
            seen + BelowCap(lim, counted, [core] + rest) == seen + more + BelowCap(lim, counted + 1, rest)
  {
    assert ([core] + rest)[1..] == rest;
  }

  ghost predicate Counted(trackers: map<string, Tracker>, counts: map<string, nat>) {
    forall path {:trigger TrackerOf(trackers, path)} :: TrackerOf(trackers, path).matchCount == CountOf(counts, path)
  }

  lemma CountedOn(trackers: map<string, Tracker>, counts: map<string, nat>, path: string, t: Tracker, n: nat)
    requires Counted(trackers, counts) && t.matchCount == n
    ensures Counted(trackers[path := t], counts[path := n])
  {
    forall other {:trigger TrackerOf(trackers, other)}
      ensures TrackerOf(trackers[path := t], other).matchCount == CountOf(counts[path := n], other)
    {
      assert TrackerOf(trackers, other).matchCount == CountOf(counts, other);
    }
  }

  /** One prepared line. */
  lemma PreparedLineSliced(lim: Limits, g: Ingest, counts: map<string, nat>, p: Prepared, seen: seq<Core>)
    requires ContentSearch(lim) && Sliced(lim, g.state, [], seen) && !g.state.fastTailActive && !g.state.stop
    requires p.query < |g.state.queryCounts| && Counted(g.trackers, counts)
    ensures var next := OnPrepared(lim, g, p); var counted := CountOf(counts, p.path);
            && Sliced(lim, next.state, [], seen + MatchesOf(lim, counted, p))
            && !next.state.fastTailActive && |next.state.queryCounts| == |g.state.queryCounts|
            && (next.state.stop || Counted(next.trackers, counts[p.path := counted + |p.founds|]))
  {
    var t := TrackerOf(g.trackers, p.path);
    assert p.founds[0..] == p.founds;
    PreparedFoundsSliced(lim, g.state, t, p, 0, seen);
    OnPreparedFoundsKeepsQueries(lim, g.state, t, p, 0);
    var (s', t') := OnPreparedFounds(lim, g.state, t, p, 0);
    if !s'.stop {
      CountedOn(g.trackers, counts, p.path, t', t.matchCount + |p.founds|);
    }
  }

  /** One line further, with what is left to do. */
  lemma PreparedLineFurther(lim: Limits, g: Ingest, counts: map<string, nat>, lines: seq<Prepared>, n: nat,
                            seen: seq<Core>)
    returns (next: Ingest, more: map<string, nat>, longer: seq<Core>)
    requires ContentSearch(lim) && Sliced(lim, g.state, [], seen) && !g.state.fastTailActive && !g.state.stop
    requires n < |lines| && QueriesExist(lines, |g.state.queryCounts|)
    requires Counted(g.trackers, counts)
    ensures next == OnPrepared(lim, g, lines[n])
    ensures longer == seen + MatchesOf(lim, CountOf(counts, lines[n].path), lines[n])
    ensures Sliced(lim, next.state, [], longer) && !next.state.fastTailActive
    ensures |next.state.queryCounts| == |g.state.queryCounts| && (next.state.stop || Counted(next.trackers, more))
    ensures OnPreparedLines(lim, g, lines, n) == OnPreparedLines(lim, next, lines, n + 1)
    ensures seen + PreparedMatches(lim, counts, lines, n) == longer + PreparedMatches(lim, more, lines, n + 1)
  {
    var p, counted := lines[n], CountOf(counts, lines[n].path);
    next, more := OnPrepared(lim, g, p), counts[p.path := counted + |p.founds|];
    longer := seen + MatchesOf(lim, counted, p);
    PreparedLineSliced(lim, g, counts, p, seen);
    Regroup(seen, MatchesOf(lim, counted, p), PreparedMatches(lim, more, lines, n + 1));
  }

  /** All prepared lines from number `n` on, up to the state `end`, in which all matches have been seen. */
  lemma {:induction false} PreparedLinesSliced(lim: Limits, g: Ingest, counts: map<string, nat>, lines: seq<Prepared>,
                                               n: nat, seen: seq<Core>, end: State, all: seq<Core>)
    requires ContentSearch(lim) && Sliced(lim, g.state, [], seen) && !g.state.fastTailActive
    requires n <= |lines| && QueriesExist(lines, |g.state.queryCounts|)
    requires g.state.stop || Counted(g.trackers, counts)
    requires end == OnPreparedLines(lim, g, lines, n).state
    requires all == seen + PreparedMatches(lim, counts, lines, n)
    ensures Sliced(lim, end, [], all)
    decreases |lines| - n
  {
    if n == |lines| {
      assert all == seen;
    } else if g.state.stop {
      CutSliceIsFinal(lim, g.state, [], seen, PreparedMatches(lim, counts, lines, n));
    } else {
      var next, more, longer := PreparedLineFurther(lim, g, counts, lines, n, seen);
      PreparedLinesSliced(lim, next, more, lines, n + 1, longer, end, all);
    }
  }

  lemma Regroup(a: seq<Core>, b: seq<Core>, c: seq<Core>)
    ensures a + (b + c) == (a + b) + c
  {
  }

  // ----- the search -----

  predicate QueriesExist(lines: seq<Prepared>, queries: nat) {
    forall i :: 0 <= i < |lines| ==> lines[i].query < queries
  }

  /** The whole search over prepared lines. */
  function PreparedSearch(lim: Limits, queries: nat, lines: seq<Prepared>): State
    requires QueriesExist(lines, queries)
  {
    OnPreparedLines(lim, Ingest(Initial(queries), map[]), lines, 0).state
  }

  /**
   A page over prepared lines is a slice of the list of their matches in arrival order, cut exactly when more
   remain, with or without context, total counting, the fast tail and the response limit.
   */
  lemma PreparedPageIsSlice(lim: Limits, queries: nat, lines: seq<Prepared>)
    requires !lim.filesOnly && !lim.countOnly && (lim.exactTotalFastTail ==> lim.calculateTotal)
    requires QueriesExist(lines, queries)
    ensures IsPage(lim, PreparedSearch(lim, queries, lines), PreparedMatches(lim, map[], lines, 0))
  {
    var slow := lim.(exactTotalFastTail := false);
    if lim.calculateTotal {
      FastTailIsInvisibleForPreparedLines(lim, queries, lines);
      assert lim == lim.(exactTotalFastTail := true) || lim == slow;
    }
    PreparedDependOnCap(lim, slow, map[], lines, 0);
    var all := PreparedMatches(lim, map[], lines, 0);
    assert all == [] + all;
    PreparedLinesSliced(slow, Ingest(Initial(queries), map[]), map[], lines, 0, [],
                        PreparedSearch(slow, queries, lines), all);
    SliceIsPage(slow, PreparedSearch(slow, queries, lines), PreparedMatches(lim, map[], lines, 0));
  }

  lemma {:induction false} CapDecides(a: Limits, b: Limits, counted: nat, cores: seq<Core>)
    requires a.maxMatchesPerFile == b.maxMatchesPerFile
    ensures BelowCap(a, counted, cores) == BelowCap(b, counted, cores)
    decreases |cores|
  {
    BelowCapIsPrefix(a, counted, cores);
    BelowCapIsPrefix(b, counted, cores);
  }

  lemma {:induction false} PreparedDependOnCap(a: Limits, b: Limits, counts: map<string, nat>, lines: seq<Prepared>,
                                               n: nat)
    requires n <= |lines| && a.maxMatchesPerFile == b.maxMatchesPerFile
    ensures PreparedMatches(a, counts, lines, n) == PreparedMatches(b, counts, lines, n)
    decreases |lines| - n
  {
    if n < |lines| {
      var p, counted := lines[n], CountOf(counts, lines[n].path);
      CapDecides(a, b, counted, LineCores(p.path, p.line, p.query, p.founds));
      PreparedDependOnCap(a, b, counts[p.path := counted + |p.founds|], lines, n + 1);
    }
  }

  function PreparedPages(lim: Limits, queries: nat, lines: seq<Prepared>): nat -> State
    requires QueriesExist(lines, queries)
  {
    (cursor: nat) => PreparedSearch(At(lim, cursor), queries, lines)
  }

  /** When every item without context fits a response alone, the pages list every match once and in order. */
  lemma PreparedSearchGivesPages(lim: Limits, queries: nat, lines: seq<Prepared>)
    requires Listing(lim) && ItemsFit(lim) && QueriesExist(lines, queries)
    ensures GivesPages(PreparedPages(lim, queries, lines), PreparedMatches(lim, map[], lines, 0))
  {
    forall cursor: nat
      ensures IsPageAt(PreparedPages(lim, queries, lines), PreparedMatches(lim, map[], lines, 0), cursor)
    {
      PreparedPageIsSlice(At(lim, cursor), queries, lines);
      PreparedDependOnCap(At(lim, cursor), lim, map[], lines, 0);
      assert ItemsFit(At(lim, cursor));
      PageMakesProgress(At(lim, cursor), PreparedSearch(At(lim, cursor), queries, lines),
                        PreparedMatches(lim, map[], lines, 0));
    }
  }
}
