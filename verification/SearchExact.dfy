/** The whole scan fills the response exactly as the reference says: match by match, line by line, file by file. */
module SearchExact {
  import opened Options
  import opened SearchScan
  import opened SearchFastTail
  import opened SearchPaging
  import opened SearchReference
  import opened SearchResponse

  // ----- one match -----

  lemma FilterKeepsResponse(lim: Limits, s: State, t: Tracker, core: Core, pending: nat)
    requires ContentSearch(lim) && !s.fastTailActive && core.query < |s.queryCounts| && StopsWhenCut(lim, s)
    ensures var f := Filter(lim, s, t, core, pending);
            && ResponseOf(f.state) == ResponseOf(s) && StopsWhenCut(lim, f.state) && !f.state.fastTailActive
            && (f.verdict != Break ==> f.state.stop == s.stop)
            && (f.verdict == Break ==>
                  && !lim.calculateTotal && !s.responseLimitReached && f.state.stop
                  && lim.maxResults <= |s.matches| + pending
                  && t.matchCount < lim.maxMatchesPerFile && lim.cursor <= s.skipped)
            && (f.verdict == Take ==> t.matchCount < lim.maxMatchesPerFile && !s.responseLimitReached)
  {
  }

  /** The response and the pending results are the same, and the search has not stopped since. */
  lemma SameIsExact(c: Course, places: seq<Place>, spot: Spot, scan: Scan, next: Scan)
    requires c.rejected <= |c.results| && Exact(c, places, spot, scan)
    requires ResponseOf(next.state) == ResponseOf(scan.state) && next.pending == scan.pending
    requires StopsWhenCut(c.lim, next.state)
    requires next.state.stop == scan.state.stop
          || (next.state.stop && !next.state.responseLimitReached && spot.line == LastAt(c.lim, places, spot))
    ensures Exact(c, places, spot, next)
  {
  }

  /** What is known of a match of the current line: below the cap of its file it is the next one in the list. */
  ghost predicate IsNext(c: Course, places: seq<Place>, spot: Spot, t: Tracker, core: Core, seen: nat) {
    && core.query == spot.query && core.line == spot.line
    && (t.matchCount < c.lim.maxMatchesPerFile ==> seen < |places| && places[seen] == Place(spot.number, core))
  }

  lemma FullPageEndsHere(c: Course, places: seq<Place>, spot: Spot, s: State, t: Tracker, pending: seq<Pending>,
                         seen: seq<Core>, core: Core)
    requires Sliced(c.lim, s, pending, seen) && IsNext(c, places, spot, t, core, |seen|)
    requires !c.lim.calculateTotal && t.matchCount < c.lim.maxMatchesPerFile && !s.truncated
    requires c.lim.maxResults <= |s.matches| + |pending| && c.lim.cursor <= s.skipped
    ensures spot.line == LastAt(c.lim, places, spot)
  {
    var taken := |s.matches| + |pending|;
    assert |ItemCores(s.matches) + PendingCores(pending)| == taken;
    assert |seen| == c.lim.cursor + c.lim.maxResults;
  }

  /** The place of a match that becomes a result. */
  lemma TakenResult(c: Course, files: seq<File>, places: seq<Place>, spot: Spot, s: State, t: Tracker,
                    pending: seq<Pending>, seen: seq<Core>, core: Core)
    requires ContentSearch(c.lim) && Planned(c, files, places) && Sliced(c.lim, s, pending, seen)
    requires IsNext(c, places, spot, t, core, |seen|) && spot.number < |files| && files[spot.number] == spot.file
    requires !s.fastTailActive && core.query < |s.queryCounts|
    requires Filter(c.lim, s, t, core, |pending|).verdict == Take
    ensures var k := |s.matches| + |pending|;
            && k < |c.results| && c.results[k].place == Place(spot.number, core) && c.results[k].file == spot.file
            && FoundIn(spot, c.results[k])
  {
    TakenIsNext(c.lim, s, t, core, pending, seen);
    assert IsResult(c, files, places, |s.matches| + |pending|);
  }

  /** A match that waits for its context is pending behind the others. */
  lemma PendingIsWaiting(lim: Limits, spot: Spot, coming: seq<Result>, pending: seq<Pending>, r: Result,
                         before: seq<string>)
    requires lim.contextLines != 0 && FoundIn(spot, r) && r.place.core.line == spot.line
    requires before == Texts(spot.file, spot.line - 1 - lim.contextLines, spot.line - 1)
    requires AreWaiting(lim, coming, pending, spot.line) && FoundInOrder(spot, coming) && Collect(lim, spot, coming)
    ensures var item := Item(r.place.core, Some(Bounded(lim, before)), None, false, false);
            AreWaiting(lim, coming + [r], pending + [Pending(item, [], AnyCut(lim, before))], spot.line)
    ensures FoundInOrder(spot, coming + [r]) && Collect(lim, spot, coming + [r])
  {
    assert TextsAfter(lim, r, spot.line) == [];
    assert TextsBefore(lim, r) == before;
    assert Bounded(lim, []) == [] && !AnyCut(lim, []);
    forall j | 0 <= j < |coming|
      ensures FoundIn(spot, (coming + [r])[j]) && (coming + [r])[j].place.core.line <= spot.line
    {
      assert FoundIn(spot, coming[j]);
    }
  }

  lemma TakeIsExact(c: Course, files: seq<File>, places: seq<Place>, spot: Spot, scan: Scan, core: Core,
                    seen: seq<Core>)
    requires ContentSearch(c.lim) && c.lim.contextLines != 0 && Kept(c, files, places, spot, scan, seen)
    requires IsNext(c, places, spot, scan.tracker, core, |seen|)
    requires spot.number < |files| && files[spot.number] == spot.file
    requires !scan.state.fastTailActive && !scan.state.stop && core.query < |scan.state.queryCounts|
    requires Filter(c.lim, scan.state, scan.tracker, core, |scan.pending|).verdict == Take
    requires scan.before == Texts(spot.file, spot.line - 1 - c.lim.contextLines, spot.line - 1)
    ensures Exact(c, places, spot, OnFound(c.lim, scan, core).0)
  {
    var k := |scan.state.matches|;
    FilterKeepsResponse(c.lim, scan.state, scan.tracker, core, |scan.pending|);
    TakenResult(c, files, places, spot, scan.state, scan.tracker, scan.pending, seen, core);
    OneMoreIsExact(c, places, spot, scan, OnFound(c.lim, scan, core).0, core, k, c.results[k..k + |scan.pending|]);
  }

  lemma OneMoreIsExact(c: Course, places: seq<Place>, spot: Spot, scan: Scan, next: Scan, core: Core, k: nat,
                       coming: seq<Result>)
    requires c.Valid() && c.lim.contextLines != 0 && core.line == spot.line && !scan.state.stop
    requires Follows(c, scan.state, scan.pending) && k == Came(c, scan.state, scan.pending) <= c.rejected
    requires k + |scan.pending| < |c.results| && coming == c.results[k..k + |scan.pending|]
    requires var r := c.results[k + |scan.pending|]; r.place.core == core && FoundIn(spot, r)
    requires AreWaiting(c.lim, coming, scan.pending, spot.line) && FoundInOrder(spot, coming)
    requires Collect(c.lim, spot, coming) && spot.line <= LastAt(c.lim, places, spot)
    requires scan.before == Texts(spot.file, spot.line - 1 - c.lim.contextLines, spot.line - 1)
    requires var item := Item(core, Some(Bounded(c.lim, scan.before)), None, false, false);
             next.pending == scan.pending + [Pending(item, [], AnyCut(c.lim, scan.before))]
    requires ResponseOf(next.state) == ResponseOf(scan.state) && StopsWhenCut(c.lim, next.state) && !next.state.stop
    ensures Exact(c, places, spot, next)
  {
    var r := c.results[k + |scan.pending|];
    PendingIsWaiting(c.lim, spot, coming, scan.pending, r, scan.before);
    assert c.results[k..k + |scan.pending| + 1] == coming + [r];
    FollowsAt(c, next.state, next.pending, k);
    IsExact(c, places, spot, next, k, coming + [r]);
  }

  /** Without context lines nothing waits behind a rejected result. */
  lemma NothingWaits(c: Course)
    requires c.Valid() && c.lim.contextLines == 0 && c.rejected < |c.results|
    ensures c.reach == c.rejected + 1
  {
    if c.rejected + 1 < |c.results| {
      assert !Waits(c.lim, c.results[c.rejected], c.results[c.rejected + 1]);
    }
  }

  lemma EmitStopsWhenCut(lim: Limits, s: State, item: Item)
    requires ContentSearch(lim) && StopsWhenCut(lim, s)
    ensures StopsWhenCut(lim, EmitMatch(lim, s, item))
    ensures var s' := EmitMatch(lim, s, item); s'.stop ==> s.stop || s'.responseLimitReached
  {
  }

  lemma EmitIsExact(c: Course, files: seq<File>, places: seq<Place>, spot: Spot, scan: Scan, core: Core,
                    seen: seq<Core>)
    requires ContentSearch(c.lim) && c.lim.contextLines == 0 && Kept(c, files, places, spot, scan, seen)
    requires IsNext(c, places, spot, scan.tracker, core, |seen|) && scan.pending == []
    requires spot.number < |files| && files[spot.number] == spot.file
    requires !scan.state.fastTailActive && !scan.state.stop && core.query < |scan.state.queryCounts|
    requires Filter(c.lim, scan.state, scan.tracker, core, 0).verdict == Take
    ensures var next := OnFound(c.lim, scan, core).0;
            Exact(c, places, spot, next) && (next.state.stop ==> next.state.responseLimitReached)
  {
    var s, k := scan.state, |scan.state.matches|;
    var f, item := Filter(c.lim, s, scan.tracker, core, 0).state, Item(core, None, None, false, false);
    FilterKeepsResponse(c.lim, s, scan.tracker, core, 0);
    TakenResult(c, files, places, spot, s, scan.tracker, [], seen, core);
    EmitOffers(c.lim, f, item);
    EmitStopsWhenCut(c.lim, f, item);
    if c.rejected == k {
      NothingWaits(c);
    }
    assert c.Offered(k) == item;
    FollowsAt(c, EmitMatch(c.lim, f, item), [], k + 1);
    IsExact(c, places, spot, OnFound(c.lim, scan, core).0, k + 1, []);
  }

  /** One match keeps the invariant. */
  lemma FoundIsExact(c: Course, files: seq<File>, places: seq<Place>, spot: Spot, scan: Scan, core: Core,
                     seen: seq<Core>)
    requires ContentSearch(c.lim) && Kept(c, files, places, spot, scan, seen)
    requires IsNext(c, places, spot, scan.tracker, core, |seen|)
    requires spot.number < |files| && files[spot.number] == spot.file
    requires !scan.state.fastTailActive && core.query < |scan.state.queryCounts|
    requires scan.state.stop ==> scan.state.responseLimitReached
    requires c.lim.contextLines == 0 ==> scan.pending == []
    requires c.lim.contextLines != 0 ==>
               scan.before == Texts(spot.file, spot.line - 1 - c.lim.contextLines, spot.line - 1)
    ensures var (next, stop) := OnFound(c.lim, scan, core);
            Exact(c, places, spot, next) && (stop || (next.state.stop ==> next.state.responseLimitReached))
  {
    var s, pending := scan.state, scan.pending;
    var f := Filter(c.lim, s, scan.tracker, core, |pending|);
    FilterKeepsResponse(c.lim, s, scan.tracker, core, |pending|);
    match f.verdict
    case PassOver => SameIsExact(c, places, spot, scan, OnFound(c.lim, scan, core).0);
    case Break =>
      FullPageEndsHere(c, places, spot, s, scan.tracker, pending, seen, core);
      SameIsExact(c, places, spot, scan, OnFound(c.lim, scan, core).0);
    case Take =>
      if c.lim.contextLines == 0 {
        EmitIsExact(c, files, places, spot, scan, core, seen);
      } else {
        TakeIsExact(c, files, places, spot, scan, core, seen);
      }
  }

  // ----- the list of matches while a query is scanned -----

  /**
   The list of all matches around a spot: the files before, the matches `raw` of this file that have been seen,
   those of the current line that have not, the lines and queries behind, and the files behind.
   */
  ghost predicate Stands(lim: Limits, queries: nat, places: seq<Place>, spot: Spot, before: seq<Place>, raw: seq<Core>,
                         rest: seq<Core>, after: seq<Place>)
  {
    && spot.query < queries && spot.line <= |spot.file.lines|
    && raw + (rest + (LinesCores(spot.file, spot.query, spot.line) + QueriesCores(spot.file, queries, spot.query + 1)))
       == QueriesCores(spot.file, queries, 0)
    && places == before + (Numbered(spot.number, MatchesIn(lim, queries, spot.file)) + after)
    && (forall i :: 0 <= i < |after| ==> spot.number < after[i].file)
    && (forall i :: 0 <= i < |rest| ==> rest[i].query == spot.query && rest[i].line == spot.line)
  }

  function Seen(lim: Limits, before: seq<Place>, raw: seq<Core>): seq<Core> {
    CoresAt(before) + Capped(lim, raw)
  }

  /** A match of the file that has not been seen comes from the rest of its list. */
  lemma UnseenIsLater(lim: Limits, spot: Spot, places: seq<Place>, before: seq<Place>, raw: seq<Core>,
                      later: seq<Core>, after: seq<Place>, i: nat)
    requires places == before + (Numbered(spot.number, Capped(lim, raw + later)) + after)
    requires forall j :: 0 <= j < |after| ==> spot.number < after[j].file
    requires |Seen(lim, before, raw)| <= i < |places| && places[i].file == spot.number
    ensures var j := i - |before| - |raw|; 0 <= j < |later| && places[i] == Place(spot.number, later[j])
  {
    var here := Numbered(spot.number, Capped(lim, raw + later));
    assert forall k :: |before| + |here| <= k < |places| ==> places[k] == after[k - |before| - |here|];
  }

  lemma SeenIsPrefix(lim: Limits, spot: Spot, places: seq<Place>, before: seq<Place>, raw: seq<Core>, later: seq<Core>,
                     after: seq<Place>)
    requires places == before + (Numbered(spot.number, Capped(lim, raw + later)) + after)
    ensures |Seen(lim, before, raw)| <= |places|
    ensures later != [] && |raw| < lim.maxMatchesPerFile ==>
              && |Seen(lim, before, raw)| < |places|
              && places[|Seen(lim, before, raw)|] == Place(spot.number, later[0])
  {
  }

  lemma StandsTells(lim: Limits, queries: nat, places: seq<Place>, spot: Spot, before: seq<Place>, raw: seq<Core>,
                    rest: seq<Core>, after: seq<Place>)
    requires Stands(lim, queries, places, spot, before, raw, rest, after)
    ensures |Seen(lim, before, raw)| <= |places|
    ensures Unseen(places, |Seen(lim, before, raw)|, spot)
    ensures rest == [] ==> UnseenIsBehind(places, |Seen(lim, before, raw)|, spot)
    ensures rest != [] && |raw| < lim.maxMatchesPerFile ==>
              && |Seen(lim, before, raw)| < |places|
              && places[|Seen(lim, before, raw)|] == Place(spot.number, rest[0])
  {
    var lines, others := LinesCores(spot.file, spot.query, spot.line), QueriesCores(spot.file, queries, spot.query + 1);
    var later := rest + (lines + others);
    SeenIsPrefix(lim, spot, places, before, raw, later, after);
    forall i | |Seen(lim, before, raw)| <= i < |places| && InScan(spot, places[i])
      ensures spot.line <= places[i].core.line <= |spot.file.lines|
      ensures rest == [] ==> spot.line < places[i].core.line
    {
      UnseenIsAhead(lim, queries, places, spot, before, raw, rest, after, i);
    }
  }

  lemma UnseenIsAhead(lim: Limits, queries: nat, places: seq<Place>, spot: Spot, before: seq<Place>, raw: seq<Core>,
                      rest: seq<Core>, after: seq<Place>, i: nat)
    requires Stands(lim, queries, places, spot, before, raw, rest, after)
    requires |Seen(lim, before, raw)| <= i < |places| && InScan(spot, places[i])
    ensures spot.line <= places[i].core.line <= |spot.file.lines| && (rest == [] ==> spot.line < places[i].core.line)
  {
    var lines, others := LinesCores(spot.file, spot.query, spot.line), QueriesCores(spot.file, queries, spot.query + 1);
    UnseenIsLater(lim, spot, places, before, raw, rest + (lines + others), after, i);
    LaterIsBehind(spot, queries, rest, i - |before| - |raw|);
  }

  /** No match that has not been seen is on a line that has arrived. */
  ghost predicate UnseenIsBehind(places: seq<Place>, seen: nat, spot: Spot) {
    forall i :: seen <= i < |places| && InScan(spot, places[i]) ==>
      spot.line < places[i].core.line <= |spot.file.lines|
  }

  lemma LaterIsBehind(spot: Spot, queries: nat, rest: seq<Core>, j: nat)
    requires spot.query < queries && spot.line <= |spot.file.lines|
    requires forall i :: 0 <= i < |rest| ==> rest[i].query == spot.query && rest[i].line == spot.line
    requires var later := rest + (LinesCores(spot.file, spot.query, spot.line)
                                  + QueriesCores(spot.file, queries, spot.query + 1));
             j < |later| && later[j].query == spot.query
    ensures var later := rest + (LinesCores(spot.file, spot.query, spot.line)
                                 + QueriesCores(spot.file, queries, spot.query + 1));
            spot.line <= later[j].line <= |spot.file.lines| && (rest == [] ==> spot.line < later[j].line)
  {
    LinesAreBehind(spot.file, spot.query, spot.line);
    QueriesAreBehind(spot.file, queries, spot.query + 1);
  }

  // ----- the matches of a line -----

  /** The list of all matches has those of file `f` between those before and those behind. */
  predicate IsAround(lim: Limits, queries: nat, spot: Spot, places: seq<Place>, before: seq<Place>, after: seq<Place>) {
    places == before + (Numbered(spot.number, MatchesIn(lim, queries, spot.file)) + after)
  }

  /** The search as it is known to be at a spot of the list of all matches. */
  ghost predicate HoldsIn(c: Course, files: seq<File>, places: seq<Place>, queries: nat, spot: Spot, scan: Scan,
                          before: seq<Place>, raw: seq<Core>, rest: seq<Core>, after: seq<Place>)
    requires c.rejected <= |c.results|
  {
    && Exact(c, places, spot, scan)
    && ScanPaged(c.lim, scan, CoresAt(before), raw)
    && Stands(c.lim, queries, places, spot, before, raw, rest, after)
    && spot.number < |files| && files[spot.number] == spot.file
  }

  /** The search as it is known to be at a spot, wherever the list of all matches is as planned. */
  ghost predicate Holds(c: Course, files: seq<File>, queries: nat, spot: Spot, scan: Scan, before: seq<Place>,
                        raw: seq<Core>, rest: seq<Core>, after: seq<Place>)
  {
    forall places :: Planned(c, files, places) && IsAround(c.lim, queries, spot, places, before, after) ==>
      HoldsIn(c, files, places, queries, spot, scan, before, raw, rest, after)
  }

  /** What holds of a scan at any spot. */
  ghost predicate Goes(lim: Limits, scan: Scan) {
    && ContentSearch(lim) && StopsWhenCut(lim, scan.state) && !scan.state.fastTailActive
    && (lim.contextLines == 0 ==> scan.pending == [])
  }

  lemma HoldsIsKept(c: Course, files: seq<File>, places: seq<Place>, queries: nat, spot: Spot, scan: Scan,
                    before: seq<Place>, raw: seq<Core>, rest: seq<Core>, after: seq<Place>)
    requires Planned(c, files, places) && HoldsIn(c, files, places, queries, spot, scan, before, raw, rest, after)
    ensures Kept(c, files, places, spot, scan, Seen(c.lim, before, raw))
  {
    StandsTells(c.lim, queries, places, spot, before, raw, rest, after);
  }

  lemma OneSeen(lim: Limits, queries: nat, places: seq<Place>, spot: Spot, before: seq<Place>, raw: seq<Core>,
                core: Core, rest: seq<Core>, after: seq<Place>)
    requires Stands(lim, queries, places, spot, before, raw, [core] + rest, after)
    ensures Stands(lim, queries, places, spot, before, raw + [core], rest, after)
    ensures core.query == spot.query && core.line == spot.line
  {
    var later := LinesCores(spot.file, spot.query, spot.line) + QueriesCores(spot.file, queries, spot.query + 1);
    assert (raw + [core]) + (rest + later) == raw + (([core] + rest) + later);
    assert ([core] + rest)[0] == core;
    assert forall i :: 0 <= i < |rest| ==> rest[i] == ([core] + rest)[i + 1];
  }

  /** The context lines in front of the current line. */
  ghost predicate Remembers(lim: Limits, spot: Spot, before: seq<string>, n: int) {
    lim.contextLines != 0 ==> before == Texts(spot.file, n - lim.contextLines, n)
  }

  lemma FoundGoes(lim: Limits, scan: Scan, core: Core)
    requires Goes(lim, scan) && core.query < |scan.state.queryCounts|
    requires scan.state.stop ==> scan.state.responseLimitReached
    ensures var (next, stop) := OnFound(lim, scan, core);
            && Goes(lim, next) && (stop || (next.state.stop ==> next.state.responseLimitReached))
            && next.tracker.matchCount == scan.tracker.matchCount + 1 && next.before == scan.before
            && |next.state.queryCounts| == |scan.state.queryCounts| && (stop ==> next.state.stop)
  {
    FilterKeepsResponse(lim, scan.state, scan.tracker, core, |scan.pending|);
    EmitStopsWhenCut(lim, Filter(lim, scan.state, scan.tracker, core, |scan.pending|).state,
                     Item(core, None, None, false, false));
    OnFoundKeepsQueries(lim, scan, core);
  }

  lemma FoundHoldsIn(c: Course, files: seq<File>, places: seq<Place>, queries: nat, spot: Spot, scan: Scan,
                     before: seq<Place>, raw: seq<Core>, core: Core, rest: seq<Core>, after: seq<Place>)
    requires Planned(c, files, places)
    requires HoldsIn(c, files, places, queries, spot, scan, before, raw, [core] + rest, after)
    requires Goes(c.lim, scan) && scan.tracker.matchCount == |raw| && core.query < |scan.state.queryCounts|
    requires Remembers(c.lim, spot, scan.before, spot.line - 1)
    requires scan.state.stop ==> scan.state.responseLimitReached
    ensures HoldsIn(c, files, places, queries, spot, OnFound(c.lim, scan, core).0, before, raw + [core], rest, after)
  {
    HoldsIsKept(c, files, places, queries, spot, scan, before, raw, [core] + rest, after);
    StandsTells(c.lim, queries, places, spot, before, raw, [core] + rest, after);
    OneSeen(c.lim, queries, places, spot, before, raw, core, rest, after);
    OnFoundPaged(c.lim, scan, core, CoresAt(before), raw);
    FoundIsExact(c, files, places, spot, scan, core, Seen(c.lim, before, raw));
  }

  lemma FoundHolds(c: Course, files: seq<File>, queries: nat, spot: Spot, scan: Scan, before: seq<Place>,
                   raw: seq<Core>, core: Core, rest: seq<Core>, after: seq<Place>)
    requires Holds(c, files, queries, spot, scan, before, raw, [core] + rest, after)
    requires Goes(c.lim, scan) && scan.tracker.matchCount == |raw| && core.query < |scan.state.queryCounts|
    requires Remembers(c.lim, spot, scan.before, spot.line - 1)
    requires scan.state.stop ==> scan.state.responseLimitReached
    ensures Holds(c, files, queries, spot, OnFound(c.lim, scan, core).0, before, raw + [core], rest, after)
  {
    forall places | Planned(c, files, places) && IsAround(c.lim, queries, spot, places, before, after)
      ensures HoldsIn(c, files, places, queries, spot, OnFound(c.lim, scan, core).0, before, raw + [core], rest, after)
    {
      FoundHoldsIn(c, files, places, queries, spot, scan, before, raw, core, rest, after);
    }
  }

  /** When the search has stopped, the rest of the line makes no difference. */
  lemma RestIsSkipped(c: Course, files: seq<File>, queries: nat, spot: Spot, scan: Scan, before: seq<Place>,
                      raw: seq<Core>, rest: seq<Core>, after: seq<Place>)
    requires Holds(c, files, queries, spot, scan, before, raw, rest, after) && (scan.state.stop || rest == [])
    ensures Holds(c, files, queries, spot, scan, before, raw + rest, [], after)
  {
    assert rest == [] ==> raw + rest == raw;
    forall places | Planned(c, files, places) && IsAround(c.lim, queries, spot, places, before, after)
      ensures HoldsIn(c, files, places, queries, spot, scan, before, raw + rest, [], after)
    {
      LineIsSeen(c.lim, queries, places, spot, before, raw, rest, after);
      if scan.state.stop {
        StoppedScanIsFinal(c.lim, scan, CoresAt(before), raw, rest);
      }
    }
  }

  lemma {:induction false} FoundsHold(c: Course, files: seq<File>, queries: nat, spot: Spot, scan: Scan,
                                      founds: seq<Found>, before: seq<Place>, raw: seq<Core>, rest: seq<Core>,
                                      after: seq<Place>)
    returns (next: Scan)
    requires Holds(c, files, queries, spot, scan, before, raw, rest, after)
    requires rest == LineCores(spot.file.path, spot.line, spot.query, founds)
    requires Goes(c.lim, scan) && scan.tracker.matchCount == |raw| && spot.query < |scan.state.queryCounts|
    requires Remembers(c.lim, spot, scan.before, spot.line - 1)
    requires scan.state.stop ==> scan.state.responseLimitReached
    ensures next == OnFounds(c.lim, scan, spot.file.path, spot.line, spot.query, founds)
    ensures Holds(c, files, queries, spot, next, before, raw + rest, [], after)
    ensures Goes(c.lim, next) && next.before == scan.before
    ensures next.state.stop || next.tracker.matchCount == |raw + rest|
    decreases |founds|
  {
    if founds == [] {
      next := scan;
      RestIsSkipped(c, files, queries, spot, scan, before, raw, rest, after);
    } else {
      var core := Core(spot.file.path, spot.line, spot.query, founds[0]);
      var fewer := LineCores(spot.file.path, spot.line, spot.query, founds[1..]);
      assert rest == [core] + fewer;
      assert (raw + [core]) + fewer == raw + rest;
      FoundHolds(c, files, queries, spot, scan, before, raw, core, fewer, after);
      FoundGoes(c.lim, scan, core);
      var (found, stop) := OnFound(c.lim, scan, core);
      if stop {
        next := found;
        RestIsSkipped(c, files, queries, spot, found, before, raw + [core], fewer, after);
      } else {
        next := FoundsHold(c, files, queries, spot, found, founds[1..], before, raw + [core], fewer, after);
      }
    }
  }

  // ----- a line -----

  function CoresOfNext(spot: Spot): seq<Core>
    requires spot.line < |spot.file.lines|
  {
    LineCores(spot.file.path, spot.line + 1, spot.query, FoundsOf(spot.file.lines[spot.line], spot.query))
  }

  lemma Regrouped(raw: seq<Core>, cores: seq<Core>, lines: seq<Core>, others: seq<Core>)
    ensures raw + ([] + ((cores + lines) + others)) == raw + (cores + (lines + others))
    ensures raw + (cores + (lines + others)) == (raw + cores) + ([] + (lines + others))
  {
  }

  lemma LineIsHere(lim: Limits, queries: nat, places: seq<Place>, spot: Spot, before: seq<Place>, raw: seq<Core>,
                   after: seq<Place>)
    requires Stands(lim, queries, places, spot, before, raw, [], after) && spot.line < |spot.file.lines|
    ensures Stands(lim, queries, places, Next(spot), before, raw, CoresOfNext(spot), after)
  {
    Regrouped(raw, CoresOfNext(spot), LinesCores(spot.file, spot.query, spot.line + 1),
              QueriesCores(spot.file, queries, spot.query + 1));
  }

  lemma LineIsSeen(lim: Limits, queries: nat, places: seq<Place>, spot: Spot, before: seq<Place>, raw: seq<Core>,
                   cores: seq<Core>, after: seq<Place>)
    requires Stands(lim, queries, places, spot, before, raw, cores, after)
    ensures Stands(lim, queries, places, spot, before, raw + cores, [], after)
  {
    Regrouped(raw, cores, LinesCores(spot.file, spot.query, spot.line),
              QueriesCores(spot.file, queries, spot.query + 1));
  }

  lemma LineIsRemembered(lim: Limits, spot: Spot, before: seq<string>)
    requires Remembers(lim, spot, before, spot.line) && spot.line < |spot.file.lines|
    ensures Remembers(lim, Next(spot), Remember(lim, before, spot.file.lines[spot.line].text), spot.line + 1)
  {
    if lim.contextLines != 0 {
      var longer := before + [spot.file.lines[spot.line].text];
      var first := Max(0, spot.line - lim.contextLines);
      assert |longer| == spot.line + 1 - first;
      assert forall i :: 0 <= i < |longer| ==> longer[i] == spot.file.lines[first + i].text;
      assert Remember(lim, before, spot.file.lines[spot.line].text)
          == Texts(spot.file, spot.line + 1 - lim.contextLines, spot.line + 1);
    }
  }

  /** Without context lines a line just arrives. */
  lemma PlainLineArrives(c: Course, files: seq<File>, places: seq<Place>, spot: Spot, scan: Scan, seen: seq<Core>)
    requires Kept(c, files, places, spot, scan, seen) && scan.pending == [] && !scan.state.stop
    requires spot.line < |spot.file.lines| && Unseen(places, |seen|, Next(spot))
    ensures Exact(c, places, Next(spot), scan)
  {
    LineIsRead(c, places, Next(spot), scan.state, [], seen);
    var k := Came(c, scan.state, []);
    IsExact(c, places, Next(spot), scan, k, []);
  }

  lemma ArrivalGoes(lim: Limits, scan: Scan, text: string)
    requires Goes(lim, scan) && !scan.state.stop
    ensures var arrived := LineArrives(lim, scan, text);
            && Goes(lim, arrived) && (arrived.state.stop ==> arrived.state.responseLimitReached)
            && arrived.tracker == scan.tracker && arrived.before == scan.before
            && arrived.state.queryCounts == scan.state.queryCounts
  {
    if lim.contextLines != 0 {
      var withLine := WithLine(lim, scan.pending, text);
      FlushStopsWhenCut(lim, scan.state, withLine, true);
      FlushKeepsFlags(lim, scan.state, withLine, true);
      FlushKeepsQueries(lim, scan.state, withLine, true);
    }
  }

  lemma ArrivalHoldsIn(c: Course, files: seq<File>, places: seq<Place>, queries: nat, spot: Spot, scan: Scan,
                       before: seq<Place>, raw: seq<Core>, after: seq<Place>)
    requires Planned(c, files, places) && HoldsIn(c, files, places, queries, spot, scan, before, raw, [], after)
    requires Goes(c.lim, scan) && !scan.state.stop && spot.line < |spot.file.lines|
    ensures HoldsIn(c, files, places, queries, Next(spot), LineArrives(c.lim, scan, spot.file.lines[spot.line].text),
                    before, raw, CoresOfNext(spot), after)
  {
    var text, seen := spot.file.lines[spot.line].text, Seen(c.lim, before, raw);
    HoldsIsKept(c, files, places, queries, spot, scan, before, raw, [], after);
    LineIsHere(c.lim, queries, places, spot, before, raw, after);
    StandsTells(c.lim, queries, places, Next(spot), before, raw, CoresOfNext(spot), after);
    LineArrivesPaged(c.lim, scan, text, CoresAt(before), raw);
    if c.lim.contextLines == 0 {
      PlainLineArrives(c, files, places, spot, scan, seen);
    } else {
      var arrived := LineArrivesExact(c, files, places, spot, scan, seen);
    }
  }

  lemma ArrivalHolds(c: Course, files: seq<File>, queries: nat, spot: Spot, scan: Scan, before: seq<Place>,
                     raw: seq<Core>, after: seq<Place>)
    requires Holds(c, files, queries, spot, scan, before, raw, [], after)
    requires Goes(c.lim, scan) && !scan.state.stop && spot.line < |spot.file.lines|
    ensures Holds(c, files, queries, Next(spot), LineArrives(c.lim, scan, spot.file.lines[spot.line].text),
                  before, raw, CoresOfNext(spot), after)
  {
    forall places | Planned(c, files, places) && IsAround(c.lim, queries, Next(spot), places, before, after)
      ensures HoldsIn(c, files, places, queries, Next(spot),
                      LineArrives(c.lim, scan, spot.file.lines[spot.line].text), before, raw, CoresOfNext(spot), after)
    {
      assert IsAround(c.lim, queries, spot, places, before, after);
      ArrivalHoldsIn(c, files, places, queries, spot, scan, before, raw, after);
    }
  }

  /** What the scan remembers of earlier lines has no part in what holds of it. */
  lemma BeforeIsNoMatter(c: Course, files: seq<File>, queries: nat, spot: Spot, scan: Scan, lines: seq<string>,
                         before: seq<Place>, raw: seq<Core>, rest: seq<Core>, after: seq<Place>)
    requires Holds(c, files, queries, spot, scan, before, raw, rest, after)
    ensures Holds(c, files, queries, spot, scan.(before := lines), before, raw, rest, after)
  {
    forall places | Planned(c, files, places) && IsAround(c.lim, queries, spot, places, before, after)
      ensures HoldsIn(c, files, places, queries, spot, scan.(before := lines), before, raw, rest, after)
    {
      assert HoldsIn(c, files, places, queries, spot, scan, before, raw, rest, after);
    }
  }

  lemma LineHolds(c: Course, files: seq<File>, queries: nat, spot: Spot, scan: Scan, before: seq<Place>,
                  raw: seq<Core>, after: seq<Place>)
    returns (next: Scan, longer: seq<Core>)
    requires Holds(c, files, queries, spot, scan, before, raw, [], after)
    requires Goes(c.lim, scan) && !scan.state.stop && scan.tracker.matchCount == |raw|
    requires spot.line < |spot.file.lines| && spot.query < |scan.state.queryCounts|
    requires Remembers(c.lim, spot, scan.before, spot.line)
    ensures next == OnLine(c.lim, scan, spot.file.path, spot.line + 1, spot.query, spot.file.lines[spot.line])
    ensures Holds(c, files, queries, Next(spot), next, before, longer, [], after)
    ensures Goes(c.lim, next) && (next.state.stop || next.tracker.matchCount == |longer|)
    ensures Remembers(c.lim, Next(spot), next.before, spot.line + 1)
  {
    var line := spot.file.lines[spot.line];
    var arrived := LineArrives(c.lim, scan, line.text);
    ArrivalHolds(c, files, queries, spot, scan, before, raw, after);
    ArrivalGoes(c.lim, scan, line.text);
    var searched := FoundsHold(c, files, queries, Next(spot), arrived, FoundsOf(line, spot.query), before, raw,
                               CoresOfNext(spot), after);
    longer := raw + CoresOfNext(spot);
    next := searched.(before := Remember(c.lim, searched.before, line.text));
    BeforeIsNoMatter(c, files, queries, Next(spot), searched, next.before, before, longer, [], after);
    LineIsRemembered(c.lim, spot, scan.before);
  }

  /** The search as it is known to be between two lines of a file. */
  ghost predicate HoldsBetween(c: Course, files: seq<File>, queries: nat, spot: Spot, scan: Scan, before: seq<Place>,
                               after: seq<Place>)
  {
    && Goes(c.lim, scan) && spot.query < |scan.state.queryCounts|
    && Remembers(c.lim, spot, scan.before, spot.line)
    && exists raw :: Tracks(scan, raw) && Holds(c, files, queries, spot, scan, before, raw, [], after)
  }

  ghost predicate HoldsAt(c: Course, files: seq<File>, queries: nat, spot: Spot, scan: Scan, before: seq<Place>,
                          after: seq<Place>)
  {
    forall places :: Planned(c, files, places) && IsAround(c.lim, queries, spot, places, before, after) ==>
      HoldsBetween(c, files, queries, spot, scan, before, after)
  }

  predicate Tracks(scan: Scan, raw: seq<Core>) {
    scan.state.stop || scan.tracker.matchCount == |raw|
  }

  lemma LineHoldsBetween(c: Course, files: seq<File>, queries: nat, spot: Spot, scan: Scan, before: seq<Place>,
                         after: seq<Place>)
    returns (next: Scan)
    requires HoldsBetween(c, files, queries, spot, scan, before, after)
    requires spot.line < |spot.file.lines| && !scan.state.stop
    ensures next == OnLine(c.lim, scan, spot.file.path, spot.line + 1, spot.query, spot.file.lines[spot.line])
    ensures HoldsBetween(c, files, queries, Next(spot), next, before, after)
  {
    var raw :| Tracks(scan, raw) && Holds(c, files, queries, spot, scan, before, raw, [], after);
    var longer;
    next, longer := LineHolds(c, files, queries, spot, scan, before, raw, after);
    OnLineKeepsQueries(c.lim, scan, spot.file.path, spot.line + 1, spot.query, spot.file.lines[spot.line]);
    assert Tracks(next, longer);
  }

  lemma LineHoldsAt(c: Course, files: seq<File>, queries: nat, spot: Spot, scan: Scan, before: seq<Place>,
                    after: seq<Place>)
    returns (next: Scan)
    requires HoldsAt(c, files, queries, spot, scan, before, after) && spot.query < |scan.state.queryCounts|
    requires spot.line < |spot.file.lines| && !scan.state.stop
    ensures HoldsAt(c, files, queries, Next(spot), next, before, after) && spot.query < |next.state.queryCounts|
    ensures OnLines(c.lim, scan, spot.file, spot.query, spot.line)
         == OnLines(c.lim, next, spot.file, spot.query, spot.line + 1)
  {
    next := OnLine(c.lim, scan, spot.file.path, spot.line + 1, spot.query, spot.file.lines[spot.line]);
    OnLineKeepsQueries(c.lim, scan, spot.file.path, spot.line + 1, spot.query, spot.file.lines[spot.line]);
    forall places | Planned(c, files, places) && IsAround(c.lim, queries, Next(spot), places, before, after)
      ensures HoldsBetween(c, files, queries, Next(spot), next, before, after)
    {
      assert IsAround(c.lim, queries, spot, places, before, after);
      var line := LineHoldsBetween(c, files, queries, spot, scan, before, after);
    }
  }

  /** The lines of a file, until the end or until the search stops. */
  lemma {:induction false} LinesHold(c: Course, files: seq<File>, queries: nat, spot: Spot, scan: Scan,
                                     before: seq<Place>, after: seq<Place>)
    returns (last: Spot, end: Scan)
    requires HoldsAt(c, files, queries, spot, scan, before, after) && spot.line <= |spot.file.lines|
    requires spot.query < |scan.state.queryCounts|
    ensures end == OnLines(c.lim, scan, spot.file, spot.query, spot.line)
    ensures HoldsAt(c, files, queries, last, end, before, after)
    ensures last.number == spot.number && last.file == spot.file && last.query == spot.query
    ensures end.state.stop || last.line == |spot.file.lines|
    decreases |spot.file.lines| - spot.line
  {
    if spot.line == |spot.file.lines| || scan.state.stop {
      last, end := spot, scan;
    } else {
      var next := LineHoldsAt(c, files, queries, spot, scan, before, after);
      last, end := LinesHold(c, files, queries, Next(spot), next, before, after);
    }
  }

  // ----- the end of a query -----

  /** When the query has been scanned, its last line is the one the reference says, but for a rejected result. */
  lemma QueryReadsOn(c: Course, places: seq<Place>, spot: Spot, s: State, pending: seq<Pending>, seen: seq<Core>)
    requires |c.results| == CountOf(c.lim, places) && |seen| <= |places| && UnseenIsBehind(places, |seen|, spot)
    requires s.responseLimitReached || Sliced(c.lim, s, pending, seen)
    requires StopsWhenCut(c.lim, s) && !s.stop && spot.line == |spot.file.lines|
    ensures spot.line == LastAt(c.lim, places, spot) && EndsHere(places, |seen|, spot)
  {
    if !c.lim.calculateTotal && !s.responseLimitReached {
      NextIsUnseen(c, places, s, pending, seen);
    }
  }

  lemma PendingAreDue(c: Course, files: seq<File>, places: seq<Place>, spot: Spot, s: State, k: nat,
                      coming: seq<Result>)
    requires Planned(c, files, places) && k + |coming| <= |c.results| && coming == c.results[k..k + |coming|]
    requires FoundInOrder(spot, coming) && Collect(c.lim, spot, coming)
    requires s.responseLimitReached <==> c.rejected < k
    requires StopsWhenCut(c.lim, s) && spot.line <= LastAt(c.lim, places, spot)
    requires s.stop && s.responseLimitReached && coming != [] ==>
               c.rejected < |c.results| && spot.line == c.results[c.rejected].place.core.line + c.lim.contextLines
    requires !(s.stop && s.responseLimitReached) ==> spot.line == LastAt(c.lim, places, spot)
    ensures AreDue(c, k, |coming|, spot.line)
  {
    forall i | k <= i < k + |coming|
      ensures IsDue(c, i, spot.line)
    {
      assert c.results[i] == coming[i - k] && FoundIn(spot, coming[i - k]);
      LastReadIsLastAt(c, files, places, spot, i);
      if k <= c.rejected < i {
        assert c.results[c.rejected] == coming[c.rejected - k];
      }
    }
  }

  lemma ReachAtEnd(c: Course, files: seq<File>, places: seq<Place>, spot: Spot, s: State, pending: seq<Pending>,
                   seen: seq<Core>, k: nat, end: nat)
    requires Planned(c, files, places) && !s.responseLimitReached && Sliced(c.lim, s, pending, seen)
    requires |seen| <= |places| && Unseen(places, |seen|, spot)
    requires k == |s.matches| && end == k + |pending| && k <= c.rejected < end <= |c.results|
    requires FoundInOrder(spot, c.results[k..end]) && Collect(c.lim, spot, c.results[k..end])
    requires s.truncated || EndsHere(places, |seen|, spot)
    ensures end == c.reach
  {
    NextIsUnseen(c, places, s, pending, seen);
    assert c.results[k..end][c.rejected - k] == c.results[c.rejected];
    forall i | c.rejected < i < end
      ensures c.results[i].place.core.line <= spot.line
    {
      assert FoundIn(spot, c.results[k..end][i - k]);
    }
    ReachIsHere(c, files, places, spot, |seen|, k, end);
  }

  /** What is pending at the end comes up as it is. */
  lemma EndOffers(c: Course, files: seq<File>, places: seq<Place>, spot: Spot, s: State, pending: seq<Pending>, k: nat)
    requires Planned(c, files, places) && c.lim.contextLines != 0 && Follows(c, s, pending) && k == Came(c, s, pending)
    requires k + |pending| <= |c.results| && Descending(pending)
    requires AreWaiting(c.lim, c.results[k..k + |pending|], pending, spot.line)
    requires AreDue(c, k, |pending|, spot.line) && (k <= c.rejected < k + |pending| ==> k + |pending| == c.reach)
    ensures Follows(c, Flush(c.lim, s, pending, false).0, [])
  {
    FlushOffers(c.lim, s, pending, false);
    FlushAllKeepsNothing(c.lim, s, pending);
    DueAreOffered(c, k, |pending|, spot.line, pending);
    OfferingFollows(c, s, pending, Flush(c.lim, s, pending, false).0, [], k, |pending|);
  }

  lemma EndFollows(c: Course, files: seq<File>, places: seq<Place>, spot: Spot, scan: Scan, seen: seq<Core>)
    requires Kept(c, files, places, spot, scan, seen) && c.lim.contextLines != 0 && Descending(scan.pending)
    requires UnseenIsBehind(places, |seen|, spot) && (scan.state.stop || spot.line == |spot.file.lines|)
    ensures Follows(c, Flush(c.lim, scan.state, scan.pending, false).0, [])
  {
    CameFits(c, files, places, scan.state, scan.pending, seen);
    var k := Came(c, scan.state, scan.pending);
    EndFollowsAt(c, files, places, spot, scan.state, scan.pending, seen, k, c.results[k..k + |scan.pending|]);
  }

  lemma EndFollowsAt(c: Course, files: seq<File>, places: seq<Place>, spot: Spot, s: State, pending: seq<Pending>,
                     seen: seq<Core>, k: nat, coming: seq<Result>)
    requires Planned(c, files, places) && Follows(c, s, pending) && k == Came(c, s, pending)
    requires k + |pending| <= |c.results| && coming == c.results[k..k + |pending|]
    requires AreWaiting(c.lim, coming, pending, spot.line) && c.lim.contextLines != 0 && Descending(pending)
    requires FoundInOrder(spot, coming) && Collect(c.lim, spot, coming)
    requires StopsWhenCut(c.lim, s) && StopsInTime(c, places, spot, s, pending)
    requires |seen| <= |places| && (s.responseLimitReached || Sliced(c.lim, s, pending, seen))
    requires UnseenIsBehind(places, |seen|, spot) && (s.stop || spot.line == |spot.file.lines|)
    ensures Follows(c, Flush(c.lim, s, pending, false).0, [])
  {
    EndIsReady(c, files, places, spot, s, pending, seen, k, coming);
    EndOffers(c, files, places, spot, s, pending, k);
  }

  lemma EndIsReady(c: Course, files: seq<File>, places: seq<Place>, spot: Spot, s: State, pending: seq<Pending>,
                   seen: seq<Core>, k: nat, coming: seq<Result>)
    requires Planned(c, files, places) && Follows(c, s, pending) && k == Came(c, s, pending)
    requires k + |pending| <= |c.results| && coming == c.results[k..k + |pending|]
    requires FoundInOrder(spot, coming) && Collect(c.lim, spot, coming)
    requires StopsWhenCut(c.lim, s) && StopsInTime(c, places, spot, s, pending)
    requires |seen| <= |places| && (s.responseLimitReached || Sliced(c.lim, s, pending, seen))
    requires UnseenIsBehind(places, |seen|, spot) && (s.stop || spot.line == |spot.file.lines|)
    ensures AreDue(c, k, |pending|, spot.line) && (k <= c.rejected < k + |pending| ==> k + |pending| == c.reach)
  {
    if !s.stop {
      QueryReadsOn(c, places, spot, s, pending, seen);
    }
    PendingAreDue(c, files, places, spot, s, k, coming);
    if k <= c.rejected < k + |pending| {
      ReachAtEnd(c, files, places, spot, s, pending, seen, k, k + |pending|);
    }
  }

  lemma QueryEnds(c: Course, files: seq<File>, places: seq<Place>, queries: nat, spot: Spot, scan: Scan,
                  before: seq<Place>, raw: seq<Core>, after: seq<Place>)
    requires Planned(c, files, places) && HoldsIn(c, files, places, queries, spot, scan, before, raw, [], after)
    requires Goes(c.lim, scan) && (scan.state.stop || spot.line == |spot.file.lines|)
    ensures var s' := if c.lim.contextLines == 0 then scan.state else Flush(c.lim, scan.state, scan.pending, false).0;
            Follows(c, s', [])
  {
    HoldsIsKept(c, files, places, queries, spot, scan, before, raw, [], after);
    StandsTells(c.lim, queries, places, spot, before, raw, [], after);
    if c.lim.contextLines != 0 {
      EndFollows(c, files, places, spot, scan, Seen(c.lim, before, raw));
    }
  }

  /** The state before a query, after the matches `raw` of the file. */
  ghost predicate IsBetween(c: Course, files: seq<File>, queries: nat, spot: Spot, s: State, t: Tracker,
                            before: seq<Place>, raw: seq<Core>)
  {
    && ContentSearch(c.lim) && StopsWhenCut(c.lim, s) && |s.queryCounts| == queries
    && ScanPaged(c.lim, Scan(s, t, [], []), CoresAt(before), raw)
    && IsSoFar(files, queries, spot, raw)
  }

  /** The matches `raw` are those of the queries of a file before the one at the spot. */
  predicate IsSoFar(files: seq<File>, queries: nat, spot: Spot, raw: seq<Core>) {
    && spot.number < |files| && files[spot.number] == spot.file && spot.line == 0 && spot.query <= queries
    && raw + QueriesCores(spot.file, queries, spot.query) == QueriesCores(spot.file, queries, 0)
  }

  lemma QueryStarts(c: Course, files: seq<File>, queries: nat, spot: Spot, s: State, t: Tracker, before: seq<Place>,
                    raw: seq<Core>, after: seq<Place>)
    requires IsBetween(c, files, queries, spot, s, t, before, raw) && spot.query < queries && !s.stop
    requires c.rejected <= |c.results| && Follows(c, s, [])
    requires forall i :: 0 <= i < |after| ==> spot.number < after[i].file
    ensures HoldsAt(c, files, queries, spot, Scan(s, t, [], []), before, after)
  {
    var scan := Scan(s, t, [], []);
    var cores := LinesCores(spot.file, spot.query, 0) + QueriesCores(spot.file, queries, spot.query + 1);
    assert [] + cores == cores;
    forall places | Planned(c, files, places) && IsAround(c.lim, queries, spot, places, before, after)
      ensures HoldsIn(c, files, places, queries, spot, scan, before, raw, [], after)
    {
    }
    assert Holds(c, files, queries, spot, scan, before, raw, [], after) && Tracks(scan, raw);
    assert HoldsBetween(c, files, queries, spot, scan, before, after);
  }

  lemma QueryScans(c: Course, files: seq<File>, queries: nat, spot: Spot, s: State, t: Tracker, before: seq<Place>,
                   raw: seq<Core>, after: seq<Place>)
    returns (last: Spot, end: Scan)
    requires IsBetween(c, files, queries, spot, s, t, before, raw) && spot.query < queries && !s.stop
    requires c.rejected <= |c.results| && Follows(c, s, [])
    requires forall i :: 0 <= i < |after| ==> spot.number < after[i].file
    ensures end == OnLines(c.lim, Scan(s, t, [], []), spot.file, spot.query, 0)
    ensures HoldsAt(c, files, queries, last, end, before, after)
    ensures last.number == spot.number && last.file == spot.file && last.query == spot.query
    ensures end.state.stop || last.line == |spot.file.lines|
  {
    QueryStarts(c, files, queries, spot, s, t, before, raw, after);
    last, end := LinesHold(c, files, queries, spot, Scan(s, t, [], []), before, after);
  }

  lemma ScanEnds(c: Course, files: seq<File>, places: seq<Place>, queries: nat, last: Spot, end: Scan,
                 before: seq<Place>, after: seq<Place>)
    requires Planned(c, files, places) && IsAround(c.lim, queries, last, places, before, after)
    requires HoldsAt(c, files, queries, last, end, before, after)
    requires end.state.stop || last.line == |last.file.lines|
    ensures var s' := if c.lim.contextLines == 0 then end.state else Flush(c.lim, end.state, end.pending, false).0;
            Follows(c, s', []) && StopsWhenCut(c.lim, s')
  {
    assert HoldsBetween(c, files, queries, last, end, before, after);
    var raw :| Tracks(end, raw) && Holds(c, files, queries, last, end, before, raw, [], after);
    QueryEnds(c, files, places, queries, last, end, before, raw, after);
    FlushStopsWhenCut(c.lim, end.state, end.pending, false);
  }

  /** One query keeps the response right and leaves the next one where it has to start. */
  lemma QueryFollows(c: Course, files: seq<File>, places: seq<Place>, queries: nat, spot: Spot, s: State, t: Tracker,
                     before: seq<Place>, raw: seq<Core>, after: seq<Place>)
    requires Planned(c, files, places) && IsAround(c.lim, queries, spot, places, before, after)
    requires IsBetween(c, files, queries, spot, s, t, before, raw) && spot.query < queries && !s.stop
    requires Follows(c, s, []) && forall i :: 0 <= i < |after| ==> spot.number < after[i].file
    ensures var s' := OnQuery(c.lim, s, t, spot.file, spot.query).0; Follows(c, s', []) && StopsWhenCut(c.lim, s')
  {
    var last, end := QueryScans(c, files, queries, spot, s, t, before, raw, after);
    assert IsAround(c.lim, queries, last, places, before, after);
    ScanEnds(c, files, places, queries, last, end, before, after);
  }

  /** It leaves the next query where that has to start. */
  lemma QueryMovesOn(c: Course, files: seq<File>, queries: nat, spot: Spot, s: State, t: Tracker, before: seq<Place>,
                     raw: seq<Core>)
    returns (next: State, tracker: Tracker, longer: seq<Core>, further: Spot)
    requires IsBetween(c, files, queries, spot, s, t, before, raw) && spot.query < queries && !s.stop
    requires StopsWhenCut(c.lim, OnQuery(c.lim, s, t, spot.file, spot.query).0)
    ensures next == OnQuery(c.lim, s, t, spot.file, spot.query).0 && further == spot.(query := spot.query + 1)
    ensures IsBetween(c, files, queries, further, next, tracker, before, longer)
    ensures OnQueries(c.lim, s, t, spot.file, spot.query)
         == OnQueries(c.lim, next, tracker, spot.file, further.query)
  {
    var scanned := OnQuery(c.lim, s, t, spot.file, spot.query);
    next, tracker, further := scanned.0, scanned.1, spot.(query := spot.query + 1);
    longer := raw + LinesCores(spot.file, spot.query, 0);
    OnQueryPaged(c.lim, s, t, spot.file, spot.query, CoresAt(before), raw);
    OnQueryKeepsQueries(c.lim, s, t, spot.file, spot.query);
    OneMoreQuery(files, queries, spot, raw);
  }

  lemma OneMoreQuery(files: seq<File>, queries: nat, spot: Spot, raw: seq<Core>)
    requires IsSoFar(files, queries, spot, raw) && spot.query < queries
    ensures IsSoFar(files, queries, spot.(query := spot.query + 1), raw + LinesCores(spot.file, spot.query, 0))
  {
    var cores, rest := LinesCores(spot.file, spot.query, 0), QueriesCores(spot.file, queries, spot.query + 1);
    assert raw + (cores + rest) == (raw + cores) + rest;
  }

  // ----- the files -----

  lemma {:induction false} QueriesFollow(c: Course, files: seq<File>, places: seq<Place>, queries: nat, spot: Spot,
                                         s: State, t: Tracker, before: seq<Place>, raw: seq<Core>, after: seq<Place>)
    requires Planned(c, files, places) && IsAround(c.lim, queries, spot, places, before, after)
    requires IsBetween(c, files, queries, spot, s, t, before, raw)
    requires Follows(c, s, []) && forall i :: 0 <= i < |after| ==> spot.number < after[i].file
    ensures var s' := OnQueries(c.lim, s, t, spot.file, spot.query); Follows(c, s', []) && StopsWhenCut(c.lim, s')
    decreases queries - spot.query
  {
    if spot.query < queries && !s.stop {
      QueryFollows(c, files, places, queries, spot, s, t, before, raw, after);
      var next, tracker, longer, further := QueryMovesOn(c, files, queries, spot, s, t, before, raw);
      QueriesFollow(c, files, places, queries, further, next, tracker, before, longer, after);
    }
  }

  lemma FileFollows(c: Course, files: seq<File>, places: seq<Place>, queries: nat, f: nat, s: State,
                    before: seq<Place>, after: seq<Place>)
    requires ContentSearch(c.lim) && Planned(c, files, places) && Follows(c, s, []) && StopsWhenCut(c.lim, s)
    requires Paged(c.lim, s, [], CoresAt(before)) && !s.fastTailActive && |s.queryCounts| == queries && f < |files|
    requires places == before + (Numbered(f, MatchesIn(c.lim, queries, files[f])) + after)
    requires forall i :: 0 <= i < |after| ==> f < after[i].file
    ensures var s' := OnFile(c.lim, s, files[f]); Follows(c, s', []) && StopsWhenCut(c.lim, s')
  {
    var spot := Spot(f, files[f], 0, 0);
    FileStarts(c, files, queries, spot, s, before);
    QueriesFollow(c, files, places, queries, spot, s, Tracker(0, false), before, [], after);
  }

  lemma FileStarts(c: Course, files: seq<File>, queries: nat, spot: Spot, s: State, before: seq<Place>)
    requires ContentSearch(c.lim) && StopsWhenCut(c.lim, s) && Paged(c.lim, s, [], CoresAt(before))
    requires !s.fastTailActive && |s.queryCounts| == queries
    requires spot.number < |files| && files[spot.number] == spot.file && spot.line == 0 && spot.query == 0
    ensures IsBetween(c, files, queries, spot, s, Tracker(0, false), before, [])
  {
    assert CoresAt(before) + Capped(c.lim, []) == CoresAt(before);
    assert [] + QueriesCores(spot.file, queries, 0) == QueriesCores(spot.file, queries, 0);
  }

  lemma FilePages(lim: Limits, file: File, f: nat, s: State, before: seq<Place>)
    requires ContentSearch(lim) && Paged(lim, s, [], CoresAt(before)) && !s.fastTailActive
    ensures var s' := OnFile(lim, s, file);
            && !s'.fastTailActive && |s'.queryCounts| == |s.queryCounts|
            && Paged(lim, s', [], CoresAt(before + Numbered(f, MatchesIn(lim, |s.queryCounts|, file))))
  {
    var here := Numbered(f, MatchesIn(lim, |s.queryCounts|, file));
    OnFilePaged(lim, s, file, CoresAt(before));
    assert CoresAt(before + here) == CoresAt(before) + MatchesIn(lim, |s.queryCounts|, file);
  }

  lemma {:induction false} FilesFollow(c: Course, files: seq<File>, places: seq<Place>, queries: nat, n: nat, s: State,
                                       before: seq<Place>)
    requires ContentSearch(c.lim) && Planned(c, files, places) && Follows(c, s, []) && StopsWhenCut(c.lim, s)
    requires Paged(c.lim, s, [], CoresAt(before)) && !s.fastTailActive && |s.queryCounts| == queries && n <= |files|
    requires places == before + Places(c.lim, queries, files, n)
    ensures Follows(c, OnFiles(c.lim, s, files, n), []) && StopsWhenCut(c.lim, OnFiles(c.lim, s, files, n))
    decreases |files| - n
  {
    if n < |files| && !s.stop {
      var here, after := Numbered(n, MatchesIn(c.lim, queries, files[n])), Places(c.lim, queries, files, n + 1);
      assert before + (here + after) == (before + here) + after;
      FileFollows(c, files, places, queries, n, s, before, after);
      FilePages(c.lim, files[n], n, s, before);
      FilesFollow(c, files, places, queries, n + 1, OnFile(c.lim, s, files[n]), before + here);
    }
  }

  // ----- the search -----

  /** What the reference says of a search. */
  function CourseFor(lim: Limits, queries: nat, files: seq<File>): Course {
    CourseOf(lim, Results(lim, files, Places(lim, queries, files, 0)))
  }

  lemma ResultsArePlanned(c: Course, files: seq<File>, places: seq<Place>)
    requires c.Valid() && forall i :: 0 <= i < |places| ==> places[i].file < |files|
    requires c.results == Results(c.lim, files, places)
    ensures Planned(c, files, places)
  {
    forall i | 0 <= i < |c.results|
      ensures IsResult(c, files, places, i)
    {
      assert c.results[i] == Results(c.lim, files, places)[i];
    }
  }

  lemma CourseIsPlanned(lim: Limits, queries: nat, files: seq<File>)
    ensures Planned(CourseFor(lim, queries, files), files, Places(lim, queries, files, 0))
  {
    var places := Places(lim, queries, files, 0);
    CourseIsValid(lim, Results(lim, files, places));
    ResultsArePlanned(CourseFor(lim, queries, files), files, places);
  }

  lemma StartFollows(c: Course, queries: nat)
    requires c.Valid()
    ensures Follows(c, Initial(queries), []) && StopsWhenCut(c.lim, Initial(queries))
  {
    FollowsAt(c, Initial(queries), [], 0);
  }

  lemma SearchFollows(lim: Limits, queries: nat, files: seq<File>)
    requires ContentSearch(lim)
    ensures Follows(CourseFor(lim, queries, files), Search(lim, queries, files), [])
    ensures StopsWhenCut(lim, Search(lim, queries, files))
  {
    var c, places := CourseFor(lim, queries, files), Places(lim, queries, files, 0);
    CourseIsPlanned(lim, queries, files);
    StartFollows(c, queries);
    assert [] + places == places;
    FilesFollow(c, files, places, queries, 0, Initial(queries), []);
  }

  /** A search that turns nothing away has offered every result. */
  lemma AllHaveCome(c: Course, files: seq<File>, places: seq<Place>, s: State, all: seq<Core>)
    requires Planned(c, files, places) && Follows(c, s, []) && Paged(c.lim, s, [], all) && |all| == |places|
    ensures Came(c, s, []) == c.reach
  {
    if !s.responseLimitReached {
      NextIsUnseen(c, places, s, [], all);
    }
  }

  /** The response of a search is exactly what the reference says, context and sizes included. */
  lemma SearchFillsResponse(lim: Limits, queries: nat, files: seq<File>)
    requires ContentSearch(lim)
    ensures var c := CourseFor(lim, queries, files);
            c.Valid() && ResponseOf(Search(lim, queries, files)) == c.ResponseTo(c.reach)
    ensures StopsWhenCut(lim, Search(lim, queries, files))
  {
    var c, places := CourseFor(lim, queries, files), Places(lim, queries, files, 0);
    var all := AllMatches(lim, queries, files, 0);
    CourseIsPlanned(lim, queries, files);
    SearchFollows(lim, queries, files);
    PlacesAreMatches(lim, queries, files, 0);
    SearchIsPaged(lim, queries, files);
    assert |CoresAt(places)| == |places|;
    AllHaveCome(c, files, places, Search(lim, queries, files), all);
  }
}
