/**
 What every match that a scan comes to keeps, the whole scan keeps: the matches it comes to are those of the file,
 in order, up to where it stops.
 */
module SearchSeen {
  import opened Options
  import opened SearchScan
  import opened SearchPaging

  type Invariant = (State, Tracker, seq<Core>) -> bool

  predicate ListsNothing(lim: Limits) {
    lim.filesOnly || lim.countOnly
  }

  /** Counting or passing over one more match keeps it, and where matches are listed, listing one does. */
  ghost predicate Keeps(lim: Limits, inv: Invariant) {
    && (forall s: State, t: Tracker, seen: seq<Core>, core: Core, pending: nat
          {:trigger inv(s, t, seen), Filter(lim, s, t, core, pending)} ::
          inv(s, t, seen) && core.query < |s.queryCounts| ==>
            var f := Filter(lim, s, t, core, pending);
            inv(f.state, f.tracker, seen + [core]))
    && (!ListsNothing(lim) ==>
          forall s: State, t: Tracker, seen: seq<Core>, item: Item
            {:trigger inv(s, t, seen), EmitMatch(lim, s, item)} ::
            inv(s, t, seen) ==> inv(EmitMatch(lim, s, item), t, seen))
  }

  /** A scan in which the invariant holds, and nothing is pending where nothing is listed. */
  ghost predicate Holds(lim: Limits, inv: Invariant, scan: Scan, seen: seq<Core>) {
    inv(scan.state, scan.tracker, seen) && (ListsNothing(lim) ==> scan.pending == [])
  }

  /** The part of the matches that was come to, which is all of them unless the scan stopped. */
  predicate IsPart(part: seq<Core>, all: seq<Core>, stop: bool) {
    part <= all && (stop || part == all)
  }

  lemma PartOfFirst(part: seq<Core>, first: seq<Core>, rest: seq<Core>)
    requires part <= first
    ensures part <= first + rest
  {
  }

  lemma PartOfBoth(first: seq<Core>, rest: seq<Core>, part: seq<Core>, stop: bool)
    requires IsPart(part, rest, stop)
    ensures IsPart(first + part, first + rest, stop)
  {
    assert (first + rest)[..|first + part|] == first + rest[..|part|];
  }

  lemma NothingIsTaken(lim: Limits, s: State, t: Tracker, core: Core, pending: nat)
    requires core.query < |s.queryCounts|
    ensures var f := Filter(lim, s, t, core, pending);
            (ListsNothing(lim) ==> f.verdict != Take) && (f.verdict == Break ==> f.state.stop)
  {
  }

  lemma FoundSeen(lim: Limits, inv: Invariant, scan: Scan, core: Core, seen: seq<Core>)
    requires Keeps(lim, inv) && Holds(lim, inv, scan, seen) && core.query < |scan.state.queryCounts|
    ensures var (next, stop) := OnFound(lim, scan, core);
            Holds(lim, inv, next, seen + [core]) && (stop ==> next.state.stop)
  {
    var f := Filter(lim, scan.state, scan.tracker, core, |scan.pending|);
    NothingIsTaken(lim, scan.state, scan.tracker, core, |scan.pending|);
    assert inv(f.state, f.tracker, seen + [core]);
    if f.verdict == Take && lim.contextLines == 0 {
      var emitted := EmitMatch(lim, f.state, Item(core, None, None, false, false));
      assert inv(emitted, f.tracker, seen + [core]);
    }
  }

  lemma {:induction false} FoundsSeen(lim: Limits, inv: Invariant, scan: Scan, path: string, line: nat, query: nat,
                                      founds: seq<Found>, seen: seq<Core>) returns (part: seq<Core>)
    requires Keeps(lim, inv) && Holds(lim, inv, scan, seen) && query < |scan.state.queryCounts|
    ensures var end := OnFounds(lim, scan, path, line, query, founds);
            Holds(lim, inv, end, seen + part) && IsPart(part, LineCores(path, line, query, founds), end.state.stop)
    decreases |founds|
  {
    if founds == [] {
      part := [];
      assert seen + part == seen;
    } else {
      var core := Core(path, line, query, founds[0]);
      var (next, stop) := OnFound(lim, scan, core);
      FoundSeen(lim, inv, scan, core, seen);
      OnFoundKeepsQueries(lim, scan, core);
      var rest := LineCores(path, line, query, founds[1..]);
      assert LineCores(path, line, query, founds) == [core] + rest;
      if stop {
        part := [core];
      } else {
        var later := FoundsSeen(lim, inv, next, path, line, query, founds[1..], seen + [core]);
        part := [core] + later;
        PartOfBoth([core], rest, later, OnFounds(lim, next, path, line, query, founds[1..]).state.stop);
        assert seen + part == seen + [core] + later;
      }
    }
  }

  lemma {:induction false} FlushSeen(lim: Limits, inv: Invariant, s: State, t: Tracker, pending: seq<Pending>,
                                     completeOnly: bool, seen: seq<Core>)
    requires Keeps(lim, inv) && inv(s, t, seen) && (ListsNothing(lim) ==> pending == [])
    ensures var (next, kept) := Flush(lim, s, pending, completeOnly);
            inv(next, t, seen) && (ListsNothing(lim) ==> kept == [])
    decreases |pending|
  {
    if pending != [] {
      if completeOnly && |pending[0].after| < lim.contextLines {
        FlushSeen(lim, inv, s, t, pending[1..], completeOnly, seen);
      } else {
        var next := EmitMatch(lim, s, Finished(pending[0]));
        assert inv(next, t, seen);
        FlushSeen(lim, inv, next, t, pending[1..], completeOnly, seen);
      }
    }
  }

  lemma ArrivalSeen(lim: Limits, inv: Invariant, scan: Scan, text: string, seen: seq<Core>)
    requires Keeps(lim, inv) && Holds(lim, inv, scan, seen)
    ensures Holds(lim, inv, LineArrives(lim, scan, text), seen)
    ensures |LineArrives(lim, scan, text).state.queryCounts| == |scan.state.queryCounts|
  {
    var pending := WithLine(lim, scan.pending, text);
    FlushSeen(lim, inv, scan.state, scan.tracker, pending, true, seen);
    FlushKeepsQueries(lim, scan.state, pending, true);
  }

  lemma LineSeen(lim: Limits, inv: Invariant, scan: Scan, path: string, number: nat, query: nat, line: Line,
                 seen: seq<Core>) returns (part: seq<Core>)
    requires Keeps(lim, inv) && Holds(lim, inv, scan, seen) && query < |scan.state.queryCounts|
    ensures var next := OnLine(lim, scan, path, number, query, line);
            && Holds(lim, inv, next, seen + part) && |next.state.queryCounts| == |scan.state.queryCounts|
            && IsPart(part, LineCores(path, number, query, FoundsOf(line, query)), next.state.stop)
  {
    var arrived := LineArrives(lim, scan, line.text);
    ArrivalSeen(lim, inv, scan, line.text, seen);
    part := FoundsSeen(lim, inv, arrived, path, number, query, FoundsOf(line, query), seen);
    OnLineKeepsQueries(lim, scan, path, number, query, line);
  }

  lemma {:induction false} LinesSeen(lim: Limits, inv: Invariant, scan: Scan, file: File, query: nat, n: nat,
                                     seen: seq<Core>) returns (part: seq<Core>)
    requires Keeps(lim, inv) && Holds(lim, inv, scan, seen) && query < |scan.state.queryCounts|
    requires n <= |file.lines|
    ensures var end := OnLines(lim, scan, file, query, n);
            Holds(lim, inv, end, seen + part) && IsPart(part, LinesCores(file, query, n), end.state.stop)
    decreases |file.lines| - n
  {
    if n == |file.lines| || scan.state.stop {
      part := [];
      assert seen + part == seen;
    } else {
      var next := OnLine(lim, scan, file.path, n + 1, query, file.lines[n]);
      var first := LineSeen(lim, inv, scan, file.path, n + 1, query, file.lines[n], seen);
      part := LaterLinesSeen(lim, inv, next, file, query, n, seen, first);
    }
  }

  lemma {:induction false} LaterLinesSeen(lim: Limits, inv: Invariant, next: Scan, file: File, query: nat, n: nat,
                                          seen: seq<Core>, first: seq<Core>) returns (part: seq<Core>)
    requires Keeps(lim, inv) && Holds(lim, inv, next, seen + first) && query < |next.state.queryCounts|
    requires n < |file.lines|
    requires IsPart(first, LineCores(file.path, n + 1, query, FoundsOf(file.lines[n], query)), next.state.stop)
    ensures var end := OnLines(lim, next, file, query, n + 1);
            Holds(lim, inv, end, seen + part) && IsPart(part, LinesCores(file, query, n), end.state.stop)
    decreases |file.lines| - n, 0
  {
    var founds := LineCores(file.path, n + 1, query, FoundsOf(file.lines[n], query));
    if next.state.stop {
      part := first;
      PartOfFirst(first, founds, LinesCores(file, query, n + 1));
    } else {
      var later := LinesSeen(lim, inv, next, file, query, n + 1, seen + first);
      part := first + later;
      assert seen + part == seen + first + later;
      PartOfBoth(founds, LinesCores(file, query, n + 1), later, OnLines(lim, next, file, query, n + 1).state.stop);
    }
  }

  lemma {:induction false} QuerySeen(lim: Limits, inv: Invariant, s: State, t: Tracker, file: File, query: nat,
                                     seen: seq<Core>) returns (part: seq<Core>)
    requires Keeps(lim, inv) && inv(s, t, seen) && query < |s.queryCounts|
    ensures var (next, t') := OnQuery(lim, s, t, file, query);
            inv(next, t', seen + part) && IsPart(part, LinesCores(file, query, 0), next.stop)
  {
    var scan := OnLines(lim, Scan(s, t, [], []), file, query, 0);
    part := LinesSeen(lim, inv, Scan(s, t, [], []), file, query, 0, seen);
    FlushSeen(lim, inv, scan.state, scan.tracker, scan.pending, false, seen + part);
    FlushStays(lim, scan.state, scan.pending, false);
  }

  /** A search that has stopped does not go on while pending results are emitted. */
  lemma {:induction false} FlushStays(lim: Limits, s: State, pending: seq<Pending>, completeOnly: bool)
    ensures s.stop ==> Flush(lim, s, pending, completeOnly).0.stop
    decreases |pending|
  {
    if pending != [] {
      if completeOnly && |pending[0].after| < lim.contextLines {
        FlushStays(lim, s, pending[1..], completeOnly);
      } else {
        FlushStays(lim, EmitMatch(lim, s, Finished(pending[0])), pending[1..], completeOnly);
      }
    }
  }

  lemma {:induction false} QueriesSeen(lim: Limits, inv: Invariant, s: State, t: Tracker, file: File, q: nat,
                                       seen: seq<Core>) returns (part: seq<Core>, end: Tracker)
    requires Keeps(lim, inv) && inv(s, t, seen) && q <= |s.queryCounts|
    ensures var next := OnQueries(lim, s, t, file, q);
            inv(next, end, seen + part) && IsPart(part, QueriesCores(file, |s.queryCounts|, q), next.stop)
    ensures |OnQueries(lim, s, t, file, q).queryCounts| == |s.queryCounts|
    ensures s.stop ==> part == []
    decreases |s.queryCounts| - q
  {
    if q == |s.queryCounts| || s.stop {
      part, end := [], t;
      assert seen + part == seen;
    } else {
      var (next, t') := OnQuery(lim, s, t, file, q);
      var first := QuerySeen(lim, inv, s, t, file, q, seen);
      OnQueryKeepsQueries(lim, s, t, file, q);
      var later;
      later, end := QueriesSeen(lim, inv, next, t', file, q + 1, seen + first);
      part := first + later;
      assert seen + part == seen + first + later;
      QueriesJoin(lim, next, t', file, q, first, later);
    }
  }

  lemma {:induction false} QueriesJoin(lim: Limits, next: State, t: Tracker, file: File, q: nat, first: seq<Core>,
                                       later: seq<Core>)
    requires q < |next.queryCounts| && IsPart(first, LinesCores(file, q, 0), next.stop)
    requires IsPart(later, QueriesCores(file, |next.queryCounts|, q + 1),
                    OnQueries(lim, next, t, file, q + 1).stop)
    requires next.stop ==> later == []
    ensures IsPart(first + later, QueriesCores(file, |next.queryCounts|, q),
                   OnQueries(lim, next, t, file, q + 1).stop)
  {
    var rest := QueriesCores(file, |next.queryCounts|, q + 1);
    if next.stop {
      assert first + later == first;
      PartOfFirst(first, LinesCores(file, q, 0), rest);
    } else {
      PartOfBoth(LinesCores(file, q, 0), rest, later, OnQueries(lim, next, t, file, q + 1).stop);
    }
  }

  /** One file: the scan comes to its matches in order, and to all of them unless it stops. */
  lemma FileSeen(lim: Limits, inv: Invariant, s: State, file: File) returns (part: seq<Core>, end: Tracker)
    requires Keeps(lim, inv) && inv(s, Tracker(0, false), [])
    ensures inv(OnFile(lim, s, file), end, part)
    ensures IsPart(part, QueriesCores(file, |s.queryCounts|, 0), OnFile(lim, s, file).stop)
    ensures |OnFile(lim, s, file).queryCounts| == |s.queryCounts|
  {
    part, end := QueriesSeen(lim, inv, s, Tracker(0, false), file, 0, []);
    assert [] + part == part;
  }

  // ----- prepared lines -----

  /** One prepared line: the same, for the counters of its path. */
  lemma {:induction false} PreparedSeen(lim: Limits, inv: Invariant, s: State, t: Tracker, p: Prepared, n: nat,
                                        seen: seq<Core>) returns (part: seq<Core>)
    requires Keeps(lim, inv) && inv(s, t, seen) && p.query < |s.queryCounts| && n <= |p.founds|
    ensures var (next, t') := OnPreparedFounds(lim, s, t, p, n);
            && inv(next, t', seen + part) && |next.queryCounts| == |s.queryCounts|
            && IsPart(part, LineCores(p.path, p.line, p.query, p.founds[n..]), next.stop)
    decreases |p.founds| - n
  {
    if n == |p.founds| {
      part := [];
      assert seen + part == seen;
    } else {
      var core := Core(p.path, p.line, p.query, p.founds[n]);
      var f := OnPreparedFound(lim, s, t, p, core);
      PreparedFoundSeen(lim, inv, s, t, p, core, seen);
      OnPreparedFoundKeepsQueries(lim, s, t, p, core);
      var rest := LineCores(p.path, p.line, p.query, p.founds[n + 1..]);
      assert LineCores(p.path, p.line, p.query, p.founds[n..]) == [core] + rest;
      if f.verdict == Break {
        part := [core];
      } else {
        var later := PreparedSeen(lim, inv, f.state, f.tracker, p, n + 1, seen + [core]);
        part := [core] + later;
        assert seen + part == seen + [core] + later;
        PartOfBoth([core], rest, later, OnPreparedFounds(lim, f.state, f.tracker, p, n + 1).0.stop);
      }
    }
  }

  lemma PreparedFoundSeen(lim: Limits, inv: Invariant, s: State, t: Tracker, p: Prepared, core: Core, seen: seq<Core>)
    requires Keeps(lim, inv) && inv(s, t, seen) && core.query < |s.queryCounts|
    ensures var f := OnPreparedFound(lim, s, t, p, core);
            inv(f.state, f.tracker, seen + [core]) && (f.verdict == Break ==> f.state.stop)
  {
    var f := Filter(lim, s, t, core, 0);
    NothingIsTaken(lim, s, t, core, 0);
    assert inv(f.state, f.tracker, seen + [core]);
    if f.verdict == Take {
      var emitted := EmitMatch(lim, f.state, PreparedItem(lim, core, p));
      assert inv(emitted, f.tracker, seen + [core]);
    }
  }
}
