/**
 What a page of a content search holds, worked out from the files alone: the matches that come up for a place
 in the response, the context each of them then has, and which of them fit.
 */
module SearchReference {
  import opened Options
  import opened SearchScan
  import opened SearchPaging

  // ----- the matches with their files -----

  /** A match with the number of the file it is in. */
  datatype Place = Place(file: nat, core: Core)

  function Numbered(f: nat, cores: seq<Core>): seq<Place> {
    seq(|cores|, i requires 0 <= i < |cores| => Place(f, cores[i]))
  }

  function CoresAt(places: seq<Place>): seq<Core> {
    seq(|places|, i requires 0 <= i < |places| => places[i].core)
  }

  /** The matches below the cap of the file. */
  function MatchesIn(lim: Limits, queries: nat, file: File): seq<Core> {
    Capped(lim, QueriesCores(file, queries, 0))
  }

  /** Every match of the files from number `n` on. */
  function Places(lim: Limits, queries: nat, files: seq<File>, n: nat): (places: seq<Place>)
    requires n <= |files|
    ensures forall i :: 0 <= i < |places| ==> n <= places[i].file < |files|
    decreases |files| - n
  {
    if n == |files| then [] else Numbered(n, MatchesIn(lim, queries, files[n])) + Places(lim, queries, files, n + 1)
  }

  /** The matches are found by the same query in the same file. */
  predicate SameScan(a: Place, b: Place) {
    a.file == b.file && a.core.query == b.core.query
  }

  /** The last line that is read while a match waits: that of the match behind a full page, or that of the file. */
  function LastRead(lim: Limits, places: seq<Place>, at: Place, file: File): nat {
    var full := lim.cursor + lim.maxResults;
    if !lim.calculateTotal && full < |places| && SameScan(places[full], at) then places[full].core.line
    else |file.lines|
  }

  // ----- the results -----

  datatype Result = Result(place: Place, file: File, lastRead: nat)

  function CountOf(lim: Limits, places: seq<Place>): nat {
    Max(0, Min(lim.maxResults, |places| - lim.cursor))
  }

  /** The results of a page without a limit of the response. */
  function Results(lim: Limits, files: seq<File>, places: seq<Place>): seq<Result>
    requires forall i :: 0 <= i < |places| ==> places[i].file < |files|
  {
    seq(CountOf(lim, places), i requires 0 <= i < CountOf(lim, places) =>
      var at := places[lim.cursor + i]; Result(at, files[at.file], LastRead(lim, places, at, files[at.file])))
  }

  /** The texts of the lines behind line `from` up to line `to`, as far as the file has them. */
  function Texts(file: File, from: int, to: int): seq<string> {
    var first := Max(0, Min(from, |file.lines|));
    var behind := Max(first, Min(to, |file.lines|));
    seq(behind - first, i requires 0 <= i < behind - first => file.lines[first + i].text)
  }

  function TextsBefore(lim: Limits, r: Result): seq<string> {
    Texts(r.file, r.place.core.line - 1 - lim.contextLines, r.place.core.line - 1)
  }

  function TextsAfter(lim: Limits, r: Result, last: int): seq<string> {
    Texts(r.file, r.place.core.line, Min(r.place.core.line + lim.contextLines, last))
  }

  /** The item of a result when line `last` is the last one it can take as context. */
  function ItemUpTo(lim: Limits, r: Result, last: int): Item {
    if lim.contextLines == 0 then Item(r.place.core, None, None, false, false)
    else
      var before, after := TextsBefore(lim, r), TextsAfter(lim, r, last);
      Item(r.place.core, Some(Bounded(lim, before)), Some(Bounded(lim, after)),
           AnyCut(lim, before) || AnyCut(lim, after), false)
  }

  /** An item that exceeds the response limit alone loses its context. */
  function Stripped(lim: Limits, item: Item): Item {
    if lim.responseBytesLimit < lim.size(item) && (item.before.Some? || item.after.Some?)
    then item.(before := None, after := None, contextOmitted := true)
    else item
  }

  /** Result `i` as it is listed when all results before it are. */
  function Listed(lim: Limits, results: seq<Result>, i: nat): Item
    requires i < |results|
  {
    var item := ItemUpTo(lim, results[i], results[i].lastRead);
    if i == 0 then Stripped(lim, item) else item
  }

  /** The size of the first `k` results. */
  function Used(lim: Limits, results: seq<Result>, k: nat): nat
    requires k <= |results|
  {
    if k == 0 then 0 else Used(lim, results, k - 1) + lim.size(Listed(lim, results, k - 1))
  }

  /** Result `k` fits behind all the results before it. */
  predicate Fits(lim: Limits, results: seq<Result>, k: nat)
    requires k < |results|
  {
    Used(lim, results, k + 1) <= lim.responseBytesLimit
  }

  /** The first result from number `k` on that does not fit, or their number if all do. */
  function FirstRejected(lim: Limits, results: seq<Result>, k: nat): (r: nat)
    requires k <= |results|
    ensures k <= r <= |results|
    ensures (forall j :: k <= j < r ==> Fits(lim, results, j)) && (r < |results| ==> !Fits(lim, results, r))
    decreases |results| - k
  {
    if k == |results| || !Fits(lim, results, k) then k else FirstRejected(lim, results, k + 1)
  }

  /** Result `b` is found before result `a` has its context and comes up for the response. */
  predicate Waits(lim: Limits, a: Result, b: Result) {
    SameScan(a.place, b.place) && a.place.core.line <= b.place.core.line < a.place.core.line + lim.contextLines
  }

  /** The first result from number `i` on that does not wait behind result `a`, or their number if all do. */
  function FirstBehind(lim: Limits, results: seq<Result>, a: Result, i: nat): (end: nat)
    requires i <= |results|
    ensures i <= end <= |results|
    ensures (forall j :: i <= j < end ==> Waits(lim, a, results[j])) && (end < |results| ==> !Waits(lim, a,
                                                                                                    results[end]))
    decreases |results| - i
  {
    if i == |results| || !Waits(lim, a, results[i]) then i else FirstBehind(lim, results, a, i + 1)
  }

  // ----- the course of a search -----

  /** The results in a response, their size, and whether one has been turned away. */
  datatype Response = Response(matches: seq<Item>, used: nat, limited: bool)

  function Offer(lim: Limits, r: Response, item: Item): Response {
    var fitted := if r.matches == [] then Stripped(lim, item) else item;
    if lim.responseBytesLimit < r.used + lim.size(fitted) then r.(limited := true)
    else r.(matches := r.matches + [fitted], used := r.used + lim.size(fitted))
  }

  /** The results, the first of them that does not fit, and up to which one they come up for the response. */
  datatype Course = Course(lim: Limits, results: seq<Result>, rejected: nat, reach: nat) {

    ghost predicate Valid() {
      && rejected <= reach <= |results| && (rejected < |results| ==> rejected < reach)
      && (forall k :: 0 <= k <= rejected && k < |results| ==> (Fits(lim, results, k) <==> k < rejected))
      && (forall i :: rejected < i <= reach && i < |results| ==>
            (Waits(lim, results[rejected], results[i]) <==> i < reach))
    }

    /** The last line result `i` can take: a search that stops at the rejected result reads none behind its context. */
    function LastLine(i: nat): int
      requires i < |results| && rejected <= |results|
    {
      if i <= rejected || lim.calculateTotal then results[i].lastRead
      else Min(results[i].lastRead, results[rejected].place.core.line + lim.contextLines)
    }

    /** Result `i` as it comes up for the response. */
    function Offered(i: nat): Item
      requires i < |results| && rejected <= |results|
    {
      ItemUpTo(lim, results[i], LastLine(i))
    }

    /** The response after the first `k` results have come up. */
    function ResponseTo(k: nat): Response
      requires k <= |results| && rejected <= |results|
    {
      if k == 0 then Response([], 0, false) else Offer(lim, ResponseTo(k - 1), Offered(k - 1))
    }

    /** Result `i` is small enough for what the results before the rejected one have left of the response. */
    predicate Overtakes(i: nat)
      requires rejected < i < |results|
    {
      var item := if rejected == 0 then Stripped(lim, Offered(i)) else Offered(i);
      Used(lim, results, rejected) + lim.size(item) <= lim.responseBytesLimit
    }

    /** No result that comes up behind the rejected one is small enough to be listed instead. */
    predicate NothingOvertakes()
      requires reach <= |results|
    {
      forall i :: rejected < i < reach ==> !Overtakes(i)
    }
  }

  function CourseOf(lim: Limits, results: seq<Result>): Course {
    var rejected := FirstRejected(lim, results, 0);
    Course(lim, results, rejected,
           if rejected == |results| then rejected else FirstBehind(lim, results, results[rejected], rejected + 1))
  }

  lemma CourseIsValid(lim: Limits, results: seq<Result>)
    ensures CourseOf(lim, results).Valid()
  {
    FirstOnes(Course(lim, results, CourseOf(lim, results).rejected, CourseOf(lim, results).reach));
  }

  lemma FirstOnes(c: Course)
    requires c.rejected == FirstRejected(c.lim, c.results, 0)
    requires c.reach == if c.rejected == |c.results| then c.rejected
                        else FirstBehind(c.lim, c.results, c.results[c.rejected], c.rejected + 1)
    ensures c.Valid()
  {
  }

  // ----- the response -----

  function Front(c: Course, k: nat): seq<Item>
    requires k <= |c.results|
  {
    seq(k, i requires 0 <= i < k => Listed(c.lim, c.results, i))
  }

  /** Up to the first result that does not fit, the response holds one result after the other. */
  lemma {:induction false} ResponseAccepts(c: Course, k: nat)
    requires c.Valid() && k <= c.rejected
    ensures c.ResponseTo(k) == Response(Front(c, k), Used(c.lim, c.results, k), false)
  {
    if k != 0 {
      ResponseAccepts(c, k - 1);
      assert Fits(c.lim, c.results, k - 1);
      assert Front(c, k) == Front(c, k - 1) + [Listed(c.lim, c.results, k - 1)];
    }
  }

  lemma ResponseRejects(c: Course)
    requires c.Valid() && c.rejected < |c.results|
    ensures c.ResponseTo(c.rejected + 1) == Response(Front(c, c.rejected), Used(c.lim, c.results, c.rejected), true)
  {
    ResponseAccepts(c, c.rejected);
    assert !Fits(c.lim, c.results, c.rejected);
  }

  lemma {:induction false} ResponseStaysLimited(c: Course, k: nat)
    requires c.Valid() && c.rejected < k <= |c.results|
    ensures c.ResponseTo(k).limited
  {
    if k == c.rejected + 1 {
      ResponseRejects(c);
    } else {
      ResponseStaysLimited(c, k - 1);
    }
  }

  lemma {:induction false} ResponseGrows(c: Course, j: nat, k: nat)
    requires c.rejected <= |c.results| && j <= k <= |c.results|
    ensures var a, b := c.ResponseTo(j).matches, c.ResponseTo(k).matches; |a| <= |b| && b[..|a|] == a
    decreases k - j
  {
    if j < k {
      ResponseGrows(c, j, k - 1);
    }
  }

  /** While nothing overtakes, the response stays as it was when the first result was turned away. */
  lemma {:induction false} ResponseStays(c: Course, k: nat)
    requires c.Valid() && c.rejected < k <= c.reach
    requires forall i :: c.rejected < i < k ==> !c.Overtakes(i)
    ensures c.ResponseTo(k) == Response(Front(c, c.rejected), Used(c.lim, c.results, c.rejected), true)
  {
    if k == c.rejected + 1 {
      ResponseRejects(c);
    } else {
      ResponseStays(c, k - 1);
      assert !c.Overtakes(k - 1);
    }
  }

  lemma OvertakerFits(c: Course, i: nat) returns (item: Item)
    requires c.Valid() && c.rejected < i < c.reach && c.Overtakes(i)
    requires c.ResponseTo(i) == Response(Front(c, c.rejected), Used(c.lim, c.results, c.rejected), true)
    ensures c.ResponseTo(i + 1).matches == Front(c, c.rejected) + [item] && item.core == c.results[i].place.core
  {
    item := if c.rejected == 0 then Stripped(c.lim, c.Offered(i)) else c.Offered(i);
  }

  /** A result that overtakes is listed where the rejected one would have been. */
  lemma OvertakerIsListed(c: Course, i: nat)
    requires c.Valid() && c.rejected < i < c.reach && c.Overtakes(i)
    requires forall j :: c.rejected < j < i ==> !c.Overtakes(j)
    ensures var matches := c.ResponseTo(c.reach).matches;
            c.rejected < |matches| && matches[c.rejected].core == c.results[i].place.core
  {
    ResponseStays(c, i);
    var item := OvertakerFits(c, i);
    ResponseGrows(c, i + 1, c.reach);
    assert c.ResponseTo(c.reach).matches[c.rejected] == (Front(c, c.rejected) + [item])[c.rejected];
  }

  lemma {:induction false} FirstOvertaker(c: Course, k: nat) returns (i: nat)
    requires c.Valid() && k <= c.reach && exists j :: c.rejected < j < k && c.Overtakes(j)
    ensures c.rejected < i < k && c.Overtakes(i) && forall j :: c.rejected < j < i ==> !c.Overtakes(j)
  {
    if exists j :: c.rejected < j < k - 1 && c.Overtakes(j) {
      i := FirstOvertaker(c, k - 1);
    } else {
      i := k - 1;
    }
  }

  // ----- the list of all matches -----

  lemma {:induction false} PlacesAreMatches(lim: Limits, queries: nat, files: seq<File>, n: nat)
    requires n <= |files|
    ensures CoresAt(Places(lim, queries, files, n)) == AllMatches(lim, queries, files, n)
    decreases |files| - n
  {
    if n < |files| {
      PlacesAreMatches(lim, queries, files, n + 1);
      assert CoresAt(Numbered(n, MatchesIn(lim, queries, files[n]))) == MatchesIn(lim, queries, files[n]);
    }
  }

  lemma {:induction false} LinesAreBehind(file: File, query: nat, n: nat)
    requires n <= |file.lines|
    ensures forall i :: 0 <= i < |LinesCores(file, query, n)| ==>
              LinesCores(file, query, n)[i].query == query && n < LinesCores(file, query, n)[i].line <= |file.lines|
    decreases |file.lines| - n
  {
    if n < |file.lines| {
      LinesAreBehind(file, query, n + 1);
    }
  }

  lemma {:induction false} QueriesAreBehind(file: File, queries: nat, q: nat)
    requires q <= queries
    ensures forall i :: 0 <= i < |QueriesCores(file, queries, q)| ==> q <= QueriesCores(file, queries, q)[i].query
    decreases queries - q
  {
    if q < queries {
      LinesAreBehind(file, q, 0);
      QueriesAreBehind(file, queries, q + 1);
    }
  }

  // ----- matches in order -----

  /** The matches of a line are in order, as a search from left to right finds them. */
  ghost predicate InOrder(founds: seq<Found>) {
    forall i, j :: 0 <= i < j < |founds| ==> founds[i].start < founds[j].start
  }

  ghost predicate FileInOrder(file: File) {
    forall n, query: nat :: 0 <= n < |file.lines| ==> InOrder(FoundsOf(file.lines[n], query))
  }

  ghost predicate FilesInOrder(files: seq<File>) {
    forall f :: 0 <= f < |files| ==> FileInOrder(files[f])
  }

  ghost predicate CoresInOrder(cores: seq<Core>) {
    forall i, j :: 0 <= i < j < |cores| && cores[i].query == cores[j].query && cores[i].line == cores[j].line ==>
      cores[i].found.start < cores[j].found.start
  }

  lemma {:induction false} LinesInOrder(file: File, query: nat, n: nat)
    requires n <= |file.lines| && FileInOrder(file)
    ensures CoresInOrder(LinesCores(file, query, n))
    decreases |file.lines| - n
  {
    if n < |file.lines| {
      LinesInOrder(file, query, n + 1);
      LinesAreBehind(file, query, n + 1);
      assert InOrder(FoundsOf(file.lines[n], query));
    }
  }

  lemma {:induction false} QueriesInOrder(file: File, queries: nat, q: nat)
    requires q <= queries && FileInOrder(file)
    ensures CoresInOrder(QueriesCores(file, queries, q))
    decreases queries - q
  {
    if q < queries {
      LinesInOrder(file, q, 0);
      LinesAreBehind(file, q, 0);
      QueriesInOrder(file, queries, q + 1);
      QueriesAreBehind(file, queries, q + 1);
    }
  }

  /** Two matches of one scan are different. */
  lemma {:induction false} PlacesDiffer(lim: Limits, queries: nat, files: seq<File>, n: nat, i: nat, j: nat)
    requires n <= |files| && FilesInOrder(files) && i < j < |Places(lim, queries, files, n)|
    requires var places := Places(lim, queries, files, n); SameScan(places[i], places[j])
    ensures var places := Places(lim, queries, files, n); places[i].core != places[j].core
    decreases |files| - n
  {
    var here := MatchesIn(lim, queries, files[n]);
    PlaceOf(lim, queries, files, n, i);
    PlaceOf(lim, queries, files, n, j);
    if j < |here| {
      MatchesDiffer(lim, queries, files[n], i, j);
    } else if |here| <= i {
      PlacesDiffer(lim, queries, files, n + 1, i - |here|, j - |here|);
    }
  }

  /** A place is one of the first file, or one of the others. */
  lemma PlaceOf(lim: Limits, queries: nat, files: seq<File>, n: nat, i: nat)
    requires n < |files| && i < |Places(lim, queries, files, n)|
    ensures var here, rest := MatchesIn(lim, queries, files[n]), Places(lim, queries, files, n + 1);
            && |Places(lim, queries, files, n)| == |here| + |rest|
            && Places(lim, queries, files, n)[i] == (if i < |here| then Place(n, here[i]) else rest[i - |here|])
            && (|here| <= i ==> n < Places(lim, queries, files, n)[i].file)
  {
  }

  lemma MatchesDiffer(lim: Limits, queries: nat, file: File, i: nat, j: nat)
    requires FileInOrder(file) && i < j < |MatchesIn(lim, queries, file)|
    ensures MatchesIn(lim, queries, file)[i] != MatchesIn(lim, queries, file)[j]
  {
    QueriesInOrder(file, queries, 0);
  }
}
