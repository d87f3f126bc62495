/**
 Pages of a content search: the page at a cursor is a slice of the list of all matches exactly when no result
 overtakes one that does not fit the response, and following the next cursor then lists every match once.
 */
module SearchPages {
  import opened Options
  import opened SearchScan
  import opened SearchFastTail
  import opened SearchPaging
  import opened SearchReference
  import opened SearchResponse
  import opened SearchExact

  predicate ListsContent(lim: Limits) {
    !lim.filesOnly && !lim.countOnly && (lim.exactTotalFastTail ==> lim.calculateTotal)
  }

  /** What the reference says of a page; the fast tail has no part in it. */
  function PlanFor(lim: Limits, queries: nat, files: seq<File>): Course {
    CourseFor(lim.(exactTotalFastTail := false), queries, files)
  }

  lemma SlowSearchIsSame(lim: Limits, queries: nat, files: seq<File>)
    requires ListsContent(lim)
    ensures SameResults(Search(lim.(exactTotalFastTail := false), queries, files), Search(lim, queries, files))
    ensures AllMatches(lim.(exactTotalFastTail := false), queries, files, 0) == AllMatches(lim, queries, files, 0)
  {
    MatchesDependOnCap(lim.(exactTotalFastTail := false), lim, queries, files, 0);
    if lim.exactTotalFastTail {
      FastTailIsInvisible(lim, queries, files);
      assert lim == lim.(exactTotalFastTail := true);
    } else {
      assert lim == lim.(exactTotalFastTail := false);
    }
  }

  // ----- the slice -----

  /** The results are the matches from the cursor on. */
  ghost predicate ListsResults(c: Course, all: seq<Core>) {
    && |c.results| == Max(0, Min(c.lim.maxResults, |all| - c.lim.cursor))
    && (forall i :: 0 <= i < |c.results| ==> c.results[i].place.core == all[c.lim.cursor + i])
  }

  lemma CourseListsResults(lim: Limits, queries: nat, files: seq<File>)
    ensures ListsResults(CourseFor(lim, queries, files), AllMatches(lim, queries, files, 0))
  {
    PlacesAreMatches(lim, queries, files, 0);
    CourseIsPlanned(lim, queries, files);
    PlannedListsResults(CourseFor(lim, queries, files), files, Places(lim, queries, files, 0));
  }

  lemma PlannedListsResults(c: Course, files: seq<File>, places: seq<Place>)
    requires Planned(c, files, places)
    ensures ListsResults(c, CoresAt(places))
  {
    forall i | 0 <= i < |c.results|
      ensures c.results[i].place.core == CoresAt(places)[c.lim.cursor + i]
    {
      assert IsResult(c, files, places, i);
    }
  }

  lemma FrontIsSlice(c: Course, all: seq<Core>, k: nat)
    requires ListsResults(c, all) && k <= |c.results|
    ensures ItemCores(Front(c, k)) == Page(all, c.lim.cursor, k)
  {
  }

  /** A page that turns a result away and lets nothing overtake it ends in front of it. */
  lemma CutPageIsSlice(c: Course, s: State, all: seq<Core>)
    requires c.Valid() && ListsResults(c, all) && c.rejected < |c.results| && c.NothingOvertakes()
    requires ResponseOf(s) == c.ResponseTo(c.reach) && s.truncated
    ensures IsPage(c.lim, s, all)
  {
    ResponseStays(c, c.reach);
    FrontIsSlice(c, all, c.rejected);
    if ItemsFit(c.lim) && c.rejected == 0 {
      assert !Fits(c.lim, c.results, 0);
      FirstFits(c);
    }
  }

  lemma FirstFits(c: Course)
    requires ItemsFit(c.lim) && c.results != []
    ensures Fits(c.lim, c.results, 0)
  {
    var item := Listed(c.lim, c.results, 0);
    assert c.lim.size(item) <= c.lim.responseBytesLimit;
    assert Used(c.lim, c.results, 1) == Used(c.lim, c.results, 0) + c.lim.size(item);
  }

  /** Results of one scan are different matches. */
  ghost predicate ResultsDiffer(c: Course) {
    forall i, j :: 0 <= i < j < |c.results| && SameScan(c.results[i].place, c.results[j].place) ==>
      c.results[i].place.core != c.results[j].place.core
  }

  lemma OvertakerIsAnother(c: Course) returns (core: Core)
    requires c.Valid() && ResultsDiffer(c) && !c.NothingOvertakes()
    ensures c.rejected < |c.results| && core != c.results[c.rejected].place.core
    ensures var matches := c.ResponseTo(c.reach).matches; c.rejected < |matches| && matches[c.rejected].core == core
  {
    var i := FirstOvertaker(c, c.reach);
    OvertakerIsListed(c, i);
    assert Waits(c.lim, c.results[c.rejected], c.results[i]);
    core := c.results[i].place.core;
  }

  /** If some result overtakes another, the page is no slice of the list. */
  lemma OvertakenPageIsNoSlice(c: Course, s: State, all: seq<Core>)
    requires c.Valid() && ListsResults(c, all) && ResultsDiffer(c) && !c.NothingOvertakes()
    requires ResponseOf(s) == c.ResponseTo(c.reach)
    ensures ItemCores(s.matches) != Page(all, c.lim.cursor, |s.matches|)
  {
    var core := OvertakerIsAnother(c);
    AnotherIsListed(s.matches, all, c.lim.cursor, c.rejected);
  }

  lemma AnotherIsListed(matches: seq<Item>, all: seq<Core>, cursor: nat, r: nat)
    requires r < |matches| && cursor + r < |all| && matches[r].core != all[cursor + r]
    ensures ItemCores(matches) != Page(all, cursor, |matches|)
  {
    assert ItemCores(matches)[r] == matches[r].core;
    assert |Page(all, cursor, |matches|)| <= r || Page(all, cursor, |matches|)[r] == all[cursor + r];
  }

  lemma PlannedResultsDiffer(lim: Limits, queries: nat, files: seq<File>)
    requires FilesInOrder(files)
    ensures ResultsDiffer(CourseFor(lim, queries, files))
  {
    CourseIsPlanned(lim, queries, files);
    PlannedDiffer(CourseFor(lim, queries, files), queries, files, Places(lim, queries, files, 0));
  }

  lemma PlannedDiffer(c: Course, queries: nat, files: seq<File>, places: seq<Place>)
    requires Planned(c, files, places) && FilesInOrder(files) && places == Places(c.lim, queries, files, 0)
    ensures ResultsDiffer(c)
  {
    forall i, j | 0 <= i < j < |c.results| && SameScan(c.results[i].place, c.results[j].place)
      ensures c.results[i].place.core != c.results[j].place.core
    {
      assert IsResult(c, files, places, i) && IsResult(c, files, places, j);
      PlacesDiffer(c.lim, queries, files, 0, c.lim.cursor + i, c.lim.cursor + j);
    }
  }

  lemma SlowPageIsSlice(lim: Limits, queries: nat, files: seq<File>)
    requires ContentSearch(lim) && CourseFor(lim, queries, files).NothingOvertakes()
    ensures IsPage(lim, Search(lim, queries, files), AllMatches(lim, queries, files, 0))
  {
    var c, s, all := CourseFor(lim, queries, files), Search(lim, queries, files), AllMatches(lim, queries, files, 0);
    SearchFillsResponse(lim, queries, files);
    CourseListsResults(lim, queries, files);
    if c.rejected < |c.results| {
      ResponseStaysLimited(c, c.reach);
      CutPageIsSlice(c, s, all);
    } else {
      ResponseAccepts(c, c.reach);
      SearchIsPaged(lim, queries, files);
      SliceIsPage(lim, s, all);
    }
  }

  /**
   The page at a cursor is a slice of the full list from there on, and marked as cut exactly when more matches
   remain, if nothing overtakes a result that does not fit. Short of the response limit it is the whole slice.
   */
  lemma PageIsSlice(lim: Limits, queries: nat, files: seq<File>)
    requires ListsContent(lim) && PlanFor(lim, queries, files).NothingOvertakes()
    ensures IsPage(lim, Search(lim, queries, files), AllMatches(lim, queries, files, 0))
  {
    SlowSearchIsSame(lim, queries, files);
    SlowPageIsSlice(lim.(exactTotalFastTail := false), queries, files);
  }

  lemma OvertakenPage(lim: Limits, queries: nat, files: seq<File>)
    requires ListsContent(lim) && FilesInOrder(files) && !PlanFor(lim, queries, files).NothingOvertakes()
    ensures var s := Search(lim, queries, files);
            ItemCores(s.matches) != Page(AllMatches(lim, queries, files, 0), lim.cursor, |s.matches|)
  {
    var slow := lim.(exactTotalFastTail := false);
    SlowSearchIsSame(lim, queries, files);
    SearchFillsResponse(slow, queries, files);
    CourseListsResults(slow, queries, files);
    PlannedResultsDiffer(slow, queries, files);
    OvertakenPageIsNoSlice(PlanFor(lim, queries, files), Search(slow, queries, files),
                           AllMatches(lim, queries, files, 0));
  }

  /** A page is what it should be if and only if no result overtakes the first one that does not fit. */
  lemma PageIsSliceExactlyWhen(lim: Limits, queries: nat, files: seq<File>)
    requires ListsContent(lim) && FilesInOrder(files)
    ensures IsPage(lim, Search(lim, queries, files), AllMatches(lim, queries, files, 0))
       <==> PlanFor(lim, queries, files).NothingOvertakes()
  {
    if PlanFor(lim, queries, files).NothingOvertakes() {
      PageIsSlice(lim, queries, files);
    } else {
      OvertakenPage(lim, queries, files);
    }
  }

  /** Without context lines no result waits for another, so none is overtaken. */
  lemma NothingOvertakesWithoutContext(lim: Limits, queries: nat, files: seq<File>)
    requires lim.contextLines == 0
    ensures PlanFor(lim, queries, files).NothingOvertakes()
  {
    var slow := lim.(exactTotalFastTail := false);
    CourseIsValid(slow, Results(slow, files, Places(slow, queries, files, 0)));
    var c := PlanFor(lim, queries, files);
    if c.rejected < |c.results| {
      NothingWaits(c);
    }
  }

  // ----- following the next cursor -----

  function Pages(lim: Limits, queries: nat, files: seq<File>): nat -> State {
    (cursor: nat) => Search(At(lim, cursor), queries, files)
  }

  /** The first result of the page fits the response, if need be without its context. */
  predicate FirstIsListed(c: Course) {
    c.results == [] || Fits(c.lim, c.results, 0)
  }

  lemma FirstListedAlone(c: Course, s: State)
    requires c.Valid() && c.results != [] && c.NothingOvertakes() && ResponseOf(s) == c.ResponseTo(c.reach)
    ensures s.matches != [] <==> Fits(c.lim, c.results, 0)
  {
    if c.rejected == 0 {
      ResponseStays(c, c.reach);
    } else {
      ResponseAccepts(c, 1);
      ResponseGrows(c, 1, c.reach);
    }
  }

  /** A page that is a slice is cut with nothing on it exactly when its first result does not fit. */
  lemma CutPageListsSome(lim: Limits, queries: nat, files: seq<File>)
    requires ListsContent(lim) && 1 <= lim.maxResults && PlanFor(lim, queries, files).NothingOvertakes()
    ensures var r := Search(lim, queries, files);
            (r.truncated ==> r.matches != []) <==> FirstIsListed(PlanFor(lim, queries, files))
  {
    var slow, c, r := lim.(exactTotalFastTail := false), PlanFor(lim, queries, files), Search(lim, queries, files);
    var all := AllMatches(lim, queries, files, 0);
    SlowSearchIsSame(lim, queries, files);
    SearchFillsResponse(slow, queries, files);
    CourseListsResults(slow, queries, files);
    PageIsSlice(lim, queries, files);
    if c.results != [] {
      FirstListedAlone(c, r);
    }
  }

  /**
   A search gives pages of the list of all matches, whatever cursor it is called with, if and only if at no
   cursor the first result is too large for a response or a result overtakes another.
   */
  lemma SearchGivesPages(lim: Limits, queries: nat, files: seq<File>)
    requires Listing(lim) && FilesInOrder(files)
    ensures GivesPages(Pages(lim, queries, files), AllMatches(lim, queries, files, 0)) <==>
              forall cursor: nat :: var c := PlanFor(At(lim, cursor), queries, files);
                FirstIsListed(c) && c.NothingOvertakes()
  {
    var all, search := AllMatches(lim, queries, files, 0), Pages(lim, queries, files);
    forall cursor: nat
      ensures IsPageAt(search, all, cursor) <==>
                var c := PlanFor(At(lim, cursor), queries, files); FirstIsListed(c) && c.NothingOvertakes()
    {
      PageAtCursor(lim, queries, files, cursor);
    }
    if forall cursor: nat :: var c := PlanFor(At(lim, cursor), queries, files);
         FirstIsListed(c) && c.NothingOvertakes()
    {
      forall cursor: nat
        ensures IsPageAt(search, all, cursor)
      {
        var c := PlanFor(At(lim, cursor), queries, files);
      }
    }
  }

  lemma PageAtCursor(lim: Limits, queries: nat, files: seq<File>, cursor: nat)
    requires Listing(lim) && FilesInOrder(files)
    ensures IsPageAt(Pages(lim, queries, files), AllMatches(lim, queries, files, 0), cursor) <==>
              var c := PlanFor(At(lim, cursor), queries, files); FirstIsListed(c) && c.NothingOvertakes()
  {
    MatchesDependOnCap(At(lim, cursor), lim, queries, files, 0);
    if PlanFor(At(lim, cursor), queries, files).NothingOvertakes() {
      PageIsSlice(At(lim, cursor), queries, files);
      CutPageListsSome(At(lim, cursor), queries, files);
    } else {
      OvertakenPage(At(lim, cursor), queries, files);
    }
  }

  /** Without context lines it is enough that every item fits a response alone. */
  lemma PlainSearchGivesPages(lim: Limits, queries: nat, files: seq<File>)
    requires Listing(lim) && lim.contextLines == 0 && ItemsFit(lim)
    ensures GivesPages(Pages(lim, queries, files), AllMatches(lim, queries, files, 0))
  {
    forall cursor: nat
      ensures IsPageAt(Pages(lim, queries, files), AllMatches(lim, queries, files, 0), cursor)
    {
      NothingOvertakesWithoutContext(At(lim, cursor), queries, files);
      PageIsSlice(At(lim, cursor), queries, files);
      MatchesDependOnCap(At(lim, cursor), lim, queries, files, 0);
      assert ItemsFit(At(lim, cursor));
    }
  }
}
