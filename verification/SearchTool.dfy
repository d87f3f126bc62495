/** The two searches as their caller sees them: the loops over files and prepared lines, and what they return. */
module SearchTool {
  import opened SearchScan
  import opened SearchFastTail
  import opened SearchPaging
  import opened SearchReference
  import opened SearchPages
  import opened SearchPreparedPaging
  import opened SearchPreparedItems
  import opened SearchCounts
  import opened SearchFileList
  import opened SearchScanner

  /** With total counting on, the fast tail makes no difference to the results. */
  ghost predicate IgnoresFastTail(lim: Limits, r: State, search: Limits -> State) {
    lim.calculateTotal ==> forall tail: bool :: SameResults(search(lim.(exactTotalFastTail := tail)), r)
  }

  /**
   A search over files gives a page of the list of all matches if nothing overtakes a result that does not fit, and
   only then, or the files of those matches; it counts what it comes to, whether or not the fast tail is used.
   */
  ghost predicate KeepsPromise(lim: Limits, r: State, queries: nat, files: seq<File>) {
    && (ListsContent(lim) ==> GivesPageExactlyWhen(lim, r, queries, files))
    && (lim.filesOnly ==> FilesListed(lim, r, AllMatches(lim, queries, files, 0)))
    && CountsFiles(r, queries, files) && FlagsAgree(lim, r)
    && IgnoresFastTail(lim, r, l => Search(l, queries, files))
  }

  /**
   A search over prepared lines gives a page of their matches, each with the context its line came with, or the files
   of those matches; it counts what it comes to.
   */
  ghost predicate KeepsPreparedPromise(lim: Limits, r: State, queries: nat, lines: seq<Prepared>)
    requires QueriesExist(lines, queries)
  {
    && (ListsContent(lim) ==>
          && IsPage(lim, r, PreparedMatches(lim, map[], lines, 0))
          && Shown(lim, lines, r, PreparedMatches(lim, map[], lines, 0)))
    && (lim.filesOnly ==> FilesListed(lim, r, PreparedMatches(lim, map[], lines, 0)))
    && CountsPrepared(r, queries, lines) && FlagsAgree(lim, r)
    && IgnoresFastTail(lim, r, l => PreparedSearch(l, queries, lines))
  }

  ghost predicate GivesPageExactlyWhen(lim: Limits, r: State, queries: nat, files: seq<File>) {
    var fine, all := PlanFor(lim, queries, files).NothingOvertakes(), AllMatches(lim, queries, files, 0);
    (fine ==> IsPage(lim, r, all)) && (FilesInOrder(files) && IsPage(lim, r, all) ==> fine)
  }

  lemma SearchGivesPage(lim: Limits, queries: nat, files: seq<File>)
    requires ListsContent(lim)
    ensures GivesPageExactlyWhen(lim, Search(lim, queries, files), queries, files)
  {
    if PlanFor(lim, queries, files).NothingOvertakes() {
      PageIsSlice(lim, queries, files);
    } else if FilesInOrder(files) {
      PageIsSliceExactlyWhen(lim, queries, files);
    }
  }

  lemma SearchIgnoresFastTail(lim: Limits, queries: nat, files: seq<File>)
    ensures IgnoresFastTail(lim, Search(lim, queries, files), l => Search(l, queries, files))
  {
    if lim.calculateTotal {
      FastTailIsInvisible(lim, queries, files);
      assert lim == lim.(exactTotalFastTail := true) || lim == lim.(exactTotalFastTail := false);
    }
  }

  lemma SearchKeepsPromise(lim: Limits, queries: nat, files: seq<File>)
    ensures KeepsPromise(lim, Search(lim, queries, files), queries, files)
  {
    if ListsContent(lim) {
      SearchGivesPage(lim, queries, files);
    }
    if lim.filesOnly {
      SearchListsFiles(lim, queries, files);
    }
    SearchCountsFiles(lim, queries, files);
    SearchIgnoresFastTail(lim, queries, files);
  }

  lemma PreparedSearchKeepsPromise(lim: Limits, queries: nat, lines: seq<Prepared>)
    requires QueriesExist(lines, queries)
    ensures KeepsPreparedPromise(lim, PreparedSearch(lim, queries, lines), queries, lines)
  {
    if ListsContent(lim) {
      PreparedPageIsSlice(lim, queries, lines);
      PreparedSearchShowsItems(lim, queries, lines);
    }
    if lim.filesOnly {
      PreparedSearchListsFiles(lim, queries, lines);
    }
    SearchCountsPrepared(lim, queries, lines);
    if lim.calculateTotal {
      FastTailIsInvisibleForPreparedLines(lim, queries, lines);
      assert lim == lim.(exactTotalFastTail := true) || lim == lim.(exactTotalFastTail := false);
    }
  }

  /** The streaming search over files, until a limit stops it. */
  method SearchFiles(lim: Limits, queries: nat, files: seq<File>) returns (r: State)
    ensures r == Search(lim, queries, files)
    ensures KeepsPromise(lim, r, queries, files)
  {
    r := ScanFiles(lim, queries, files);
    SearchKeepsPromise(lim, queries, files);
  }

  method ScanFiles(lim: Limits, queries: nat, files: seq<File>) returns (r: State)
    ensures r == Search(lim, queries, files)
  {
    var state := new SearchScanState(queries);
    var n := 0;
    while n < |files| && !state.stop
      invariant n <= |files|
      invariant Search(lim, queries, files) == OnFiles(lim, state.View(), files, n)
      decreases |files| - n
    {
      state.ScanFile(lim, files[n]);
      n := n + 1;
    }
    r := state.View();
  }

  /** The search over prepared lines, in the order in which they arrive. */
  method SearchPrepared(lim: Limits, queries: nat, lines: seq<Prepared>) returns (r: State)
    requires QueriesExist(lines, queries)
    ensures r == PreparedSearch(lim, queries, lines)
    ensures KeepsPreparedPromise(lim, r, queries, lines)
  {
    r := IngestLines(lim, queries, lines);
    PreparedSearchKeepsPromise(lim, queries, lines);
  }

  method IngestLines(lim: Limits, queries: nat, lines: seq<Prepared>) returns (r: State)
    requires QueriesExist(lines, queries)
    ensures r == PreparedSearch(lim, queries, lines)
  {
    var state := new SearchScanState(queries);
    var trackers: map<string, Tracker> := map[];
    var n := 0;
    while n < |lines| && !state.stop
      invariant n <= |lines| && |state.queryCounts| == queries
      invariant PreparedSearch(lim, queries, lines)
             == OnPreparedLines(lim, Ingest(state.View(), trackers), lines, n).state
      decreases |lines| - n
    {
      OnPreparedFoundsKeepsQueries(lim, state.View(), TrackerOf(trackers, lines[n].path), lines[n], 0);
      trackers := state.IngestPreparedLine(lim, lines[n], trackers);
      n := n + 1;
    }
    r := state.View();
  }
}
