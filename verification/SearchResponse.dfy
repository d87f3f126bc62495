/** The scan fills the response exactly as the reference says, with or without context lines and at every limit. */
module SearchResponse {
  import opened Options
  import opened SearchScan
  import opened SearchPaging
  import opened SearchReference

  // ----- one result on its way -----

  function ResponseOf(s: State): Response {
    Response(s.matches, s.responseBytesEstimate, s.responseLimitReached)
  }

  lemma EmitOffers(lim: Limits, s: State, item: Item)
    ensures ResponseOf(EmitMatch(lim, s, item)) == Offer(lim, ResponseOf(s), item)
  {
  }

  /** A result that still collects lines, when line `n` was the last one. */
  function Waiting(lim: Limits, r: Result, n: nat): Pending {
    var before, after := TextsBefore(lim, r), TextsAfter(lim, r, n);
    Pending(Item(r.place.core, Some(Bounded(lim, before)), None, false, false), Bounded(lim, after),
            AnyCut(lim, before) || AnyCut(lim, after))
  }

  lemma FinishedWaiting(lim: Limits, r: Result, n: nat, last: int)
    requires lim.contextLines != 0
    requires var full := r.place.core.line + lim.contextLines; Min(full, n) == Min(full, last)
    ensures Finished(Waiting(lim, r, n)) == ItemUpTo(lim, r, last)
  {
  }

  lemma WaitingTakesLine(lim: Limits, r: Result, n: nat)
    requires r.place.core.line <= n < r.place.core.line + lim.contextLines && n < |r.file.lines|
    ensures WithLine(lim, [Waiting(lim, r, n)], r.file.lines[n].text) == [Waiting(lim, r, n + 1)]
    ensures |Waiting(lim, r, n).after| == n - r.place.core.line
    ensures |Waiting(lim, r, n + 1).after| == n + 1 - r.place.core.line
  {
    var after := TextsAfter(lim, r, n);
    assert TextsAfter(lim, r, n + 1) == after + [r.file.lines[n].text];
    CutOfMore(lim, after, r.file.lines[n].text);
  }

  lemma CutOfMore(lim: Limits, lines: seq<string>, text: string)
    ensures Bounded(lim, lines + [text]) == Bounded(lim, lines) + [lim.bound(text).0]
    ensures AnyCut(lim, lines + [text]) <==> AnyCut(lim, lines) || lim.bound(text).1
  {
    var more := lines + [text];
    assert more[|lines|] == text;
    assert forall i :: 0 <= i < |lines| ==> more[i] == lines[i];
  }

  // ----- where the scan stands -----

  /** A query in a file, and the number of lines that have arrived. */
  datatype Spot = Spot(number: nat, file: File, query: nat, line: nat)

  predicate InScan(spot: Spot, at: Place) {
    at.file == spot.number && at.core.query == spot.query
  }

  function LastAt(lim: Limits, places: seq<Place>, spot: Spot): nat {
    var full := lim.cursor + lim.maxResults;
    if !lim.calculateTotal && full < |places| && InScan(spot, places[full]) then places[full].core.line
    else |spot.file.lines|
  }

  /** No match from place `seen` on is on a line of this scan before the current one. */
  ghost predicate Unseen(places: seq<Place>, seen: nat, spot: Spot) {
    forall i :: seen <= i < |places| && InScan(spot, places[i]) ==> spot.line <= places[i].core.line
  }

  ghost predicate Planned(c: Course, files: seq<File>, places: seq<Place>) {
    && c.Valid()
    && |c.results| == CountOf(c.lim, places)
    && (forall i :: 0 <= i < |c.results| ==> IsResult(c, files, places, i))
  }

  ghost predicate IsResult(c: Course, files: seq<File>, places: seq<Place>, i: nat)
    requires i < |c.results| == CountOf(c.lim, places)
  {
    var at := places[c.lim.cursor + i];
    at.file < |files| && c.results[i] == Result(at, files[at.file], LastRead(c.lim, places, at, files[at.file]))
  }

  // ----- the invariant -----

  /** How many results have come up for the response. */
  function Came(c: Course, s: State, pending: seq<Pending>): int {
    if s.responseLimitReached then c.reach - |pending| else |s.matches|
  }

  ghost predicate Follows(c: Course, s: State, pending: seq<Pending>)
    requires c.rejected <= |c.results|
  {
    var k := Came(c, s, pending);
    && 0 <= k <= |c.results| && ResponseOf(s) == c.ResponseTo(k)
    && (s.responseLimitReached <==> c.rejected < k)
  }

  /** The results that are pending, after `k` results have come up. */
  function Coming(c: Course, k: int, pending: seq<Pending>): seq<Result> {
    if 0 <= k && k + |pending| <= |c.results| then c.results[k..k + |pending|] else []
  }

  /** The pending results are these, each with the context it has after line `n`. */
  predicate AreWaiting(lim: Limits, coming: seq<Result>, pending: seq<Pending>, n: nat) {
    |coming| == |pending| && forall j :: 0 <= j < |pending| ==> pending[j] == Waiting(lim, coming[j], n)
  }

  /** Result `r` has been found in this scan. */
  predicate FoundIn(spot: Spot, r: Result) {
    InScan(spot, r.place) && r.file == spot.file && r.place.core.line <= spot.line
  }

  /** The results have been found in this scan, in the order of their lines. */
  predicate FoundInOrder(spot: Spot, coming: seq<Result>) {
    && (forall j :: 0 <= j < |coming| ==> FoundIn(spot, coming[j]))
    && (forall i, j :: 0 <= i < j < |coming| ==> coming[i].place.core.line <= coming[j].place.core.line)
  }

  /** They still collect lines. */
  predicate Collect(lim: Limits, spot: Spot, coming: seq<Result>) {
    forall j :: 0 <= j < |coming| ==> spot.line < coming[j].place.core.line + lim.contextLines
  }

  /** A search that does not count everything stops where a limit cuts the page. */
  predicate StopsWhenCut(lim: Limits, s: State) {
    (s.stop <==> s.truncated && !lim.calculateTotal) && (s.responseLimitReached ==> s.truncated)
  }

  /** The last line is read where the search stops. */
  ghost predicate StopsInTime(c: Course, places: seq<Place>, spot: Spot, s: State, pending: seq<Pending>)
    requires c.rejected <= |c.results|
  {
    && spot.line <= LastAt(c.lim, places, spot)
    && (s.stop && !s.responseLimitReached ==> spot.line == LastAt(c.lim, places, spot))
    && (s.stop && s.responseLimitReached && pending != [] ==>
          c.rejected < |c.results| && spot.line == c.results[c.rejected].place.core.line + c.lim.contextLines)
  }

  ghost predicate Exact(c: Course, places: seq<Place>, spot: Spot, scan: Scan)
    requires c.rejected <= |c.results|
  {
    var coming := Coming(c, Came(c, scan.state, scan.pending), scan.pending);
    && Follows(c, scan.state, scan.pending)
    && AreWaiting(c.lim, coming, scan.pending, spot.line)
    && FoundInOrder(spot, coming)
    && Collect(c.lim, spot, coming)
    && StopsWhenCut(c.lim, scan.state)
    && StopsInTime(c, places, spot, scan.state, scan.pending)
  }

  // ----- flushing -----

  /** The context of result `i` is what the reference says, when line `n` was the last one. */
  predicate IsDue(c: Course, i: nat, n: nat)
    requires i < |c.results| && c.rejected <= |c.results|
  {
    var full := c.results[i].place.core.line + c.lim.contextLines;
    Min(full, n) == Min(full, c.LastLine(i))
  }

  /** The response after these items have come up. */
  function OfferAll(lim: Limits, r: Response, items: seq<Item>): Response
    decreases |items|
  {
    if items == [] then r else OfferAll(lim, Offer(lim, r, items[0]), items[1..])
  }

  function AllFinished(pending: seq<Pending>): seq<Item> {
    seq(|pending|, i requires 0 <= i < |pending| => Finished(pending[i]))
  }

  /** Flushing offers the results in front of those that stay pending. */
  lemma {:induction false} FlushOffers(lim: Limits, s: State, pending: seq<Pending>, completeOnly: bool)
    requires Descending(pending)
    ensures var (s', kept) := Flush(lim, s, pending, completeOnly);
            && |kept| <= |pending|
            && ResponseOf(s') == OfferAll(lim, ResponseOf(s), AllFinished(pending[..|pending| - |kept|]))
    decreases |pending|
  {
    if pending != [] {
      if completeOnly && |pending[0].after| < lim.contextLines {
        KeepAllIncomplete(lim, s, pending);
      } else {
        var next := EmitMatch(lim, s, Finished(pending[0]));
        EmitOffers(lim, s, Finished(pending[0]));
        FlushOffers(lim, next, pending[1..], completeOnly);
        var n := |pending| - |Flush(lim, next, pending[1..], completeOnly).1|;
        assert AllFinished(pending[..n])[1..] == AllFinished(pending[1..][..n - 1]);
      }
    }
  }

  function AllOffered(c: Course, k: nat, m: nat): seq<Item>
    requires k + m <= |c.results| && c.rejected <= |c.results|
  {
    seq(m, j requires 0 <= j < m => c.Offered(k + j))
  }

  lemma {:induction false} NextResponses(c: Course, k: nat, m: nat)
    requires k + m <= |c.results| && c.rejected <= |c.results|
    ensures c.ResponseTo(k + m) == OfferAll(c.lim, c.ResponseTo(k), AllOffered(c, k, m))
    decreases m
  {
    if m != 0 {
      NextResponses(c, k + 1, m - 1);
      assert AllOffered(c, k, m)[1..] == AllOffered(c, k + 1, m - 1);
    }
  }

  /** The first `m` of the pending results have the context they are due. */
  predicate AreDue(c: Course, k: nat, m: nat, n: nat)
    requires k + m <= |c.results| && c.rejected <= |c.results|
  {
    forall i :: k <= i < k + m ==> IsDue(c, i, n)
  }

  lemma DueAreOffered(c: Course, k: nat, m: nat, n: nat, pending: seq<Pending>)
    requires c.lim.contextLines != 0 && c.rejected <= |c.results| && m <= |pending| && k + |pending| <= |c.results|
    requires AreWaiting(c.lim, c.results[k..k + |pending|], pending, n) && AreDue(c, k, m, n)
    ensures AllFinished(pending[..m]) == AllOffered(c, k, m)
  {
    forall j | 0 <= j < m
      ensures Finished(pending[j]) == c.Offered(k + j)
    {
      assert pending[j] == Waiting(c.lim, c.results[k..k + |pending|][j], n) && IsDue(c, k + j, n);
      FinishedWaiting(c.lim, c.results[k + j], n, c.LastLine(k + j));
    }
  }

  lemma {:induction false} FlushStopsWhenCut(lim: Limits, s: State, pending: seq<Pending>, completeOnly: bool)
    requires StopsWhenCut(lim, s)
    ensures StopsWhenCut(lim, Flush(lim, s, pending, completeOnly).0)
    decreases |pending|
  {
    if pending != [] {
      if completeOnly && |pending[0].after| < lim.contextLines {
        FlushStopsWhenCut(lim, s, pending[1..], completeOnly);
      } else {
        FlushStopsWhenCut(lim, EmitMatch(lim, s, Finished(pending[0])), pending[1..], completeOnly);
      }
    }
  }

  lemma ResponseCounts(c: Course, k: nat)
    requires c.Valid() && k <= |c.results|
    ensures c.ResponseTo(k).limited <==> c.rejected < k
    ensures k <= c.rejected ==> |c.ResponseTo(k).matches| == k
  {
    if k <= c.rejected {
      ResponseAccepts(c, k);
    } else {
      ResponseStaysLimited(c, k);
    }
  }

  lemma FollowsAt(c: Course, s: State, pending: seq<Pending>, k: nat)
    requires c.Valid() && k <= |c.results| && ResponseOf(s) == c.ResponseTo(k)
    requires c.rejected < k ==> k + |pending| == c.reach
    ensures Follows(c, s, pending) && Came(c, s, pending) == k
  {
    ResponseCounts(c, k);
  }

  /** Offering the first `m` pending results keeps the response right, if those behind a rejected one are all there. */
  lemma OfferingFollows(c: Course, s: State, pending: seq<Pending>, s': State, kept: seq<Pending>, k: nat, m: nat)
    requires c.Valid() && Follows(c, s, pending) && k == Came(c, s, pending)
    requires m + |kept| == |pending| && k + |pending| <= |c.results|
    requires ResponseOf(s') == OfferAll(c.lim, ResponseOf(s), AllOffered(c, k, m))
    requires k <= c.rejected < k + m ==> k + |pending| == c.reach
    ensures Follows(c, s', kept) && Came(c, s', kept) == k + m
  {
    NextResponses(c, k, m);
    FollowsAt(c, s', kept, k + m);
  }

  // ----- the arrival of a line -----

  /** Flushing complete results splits the pending ones in two. */
  lemma {:induction false} FlushSplits(lim: Limits, s: State, pending: seq<Pending>)
    requires Descending(pending)
    ensures var kept := Flush(lim, s, pending, true).1; var m := |pending| - |kept|;
            && 0 <= m && kept == pending[m..]
            && (forall j :: 0 <= j < m ==> lim.contextLines <= |pending[j].after|)
            && (forall j :: m <= j < |pending| ==> |pending[j].after| < lim.contextLines)
    decreases |pending|
  {
    if pending != [] {
      if |pending[0].after| < lim.contextLines {
        KeepAllIncomplete(lim, s, pending);
      } else {
        FlushSplits(lim, EmitMatch(lim, s, Finished(pending[0])), pending[1..]);
      }
    }
  }

  /** The spot once one more line has arrived. */
  function Next(spot: Spot): Spot {
    spot.(line := spot.line + 1)
  }

  lemma StillInOrder(spot: Spot, coming: seq<Result>)
    requires FoundInOrder(spot, coming)
    ensures FoundInOrder(Next(spot), coming)
  {
    forall j | 0 <= j < |coming|
      ensures FoundIn(Next(spot), coming[j])
    {
      assert FoundIn(spot, coming[j]);
    }
  }

  lemma LineIsTaken(lim: Limits, spot: Spot, coming: seq<Result>, pending: seq<Pending>, withLine: seq<Pending>)
    requires AreWaiting(lim, coming, pending, spot.line) && FoundInOrder(spot, coming) && Collect(lim, spot, coming)
    requires spot.line < |spot.file.lines|
    requires withLine == WithLine(lim, pending, spot.file.lines[spot.line].text)
    ensures AreWaiting(lim, coming, withLine, Next(spot).line)
    ensures forall j :: 0 <= j < |withLine| ==> |withLine[j].after| == spot.line + 1 - coming[j].place.core.line
  {
    forall j | 0 <= j < |pending|
      ensures withLine[j] == Waiting(lim, coming[j], Next(spot).line)
      ensures |withLine[j].after| == spot.line + 1 - coming[j].place.core.line
    {
      assert FoundIn(spot, coming[j]);
      WaitingTakesLine(lim, coming[j], spot.line);
      assert WithLine(lim, [pending[j]], spot.file.lines[spot.line].text)[0] == withLine[j];
    }
  }

  lemma EarlierHaveMore(spot: Spot, coming: seq<Result>, withLine: seq<Pending>)
    requires FoundInOrder(spot, coming) && |coming| == |withLine|
    requires forall j :: 0 <= j < |withLine| ==> |withLine[j].after| == spot.line + 1 - coming[j].place.core.line
    ensures Descending(withLine)
  {
    forall i, j | 0 <= i < j < |withLine|
      ensures |withLine[j].after| <= |withLine[i].after|
    {
      assert coming[i].place.core.line <= coming[j].place.core.line;
    }
  }

  /** As long as the response is not limited, the result behind the pending ones has not been seen. */
  lemma NextIsUnseen(c: Course, places: seq<Place>, s: State, pending: seq<Pending>, seen: seq<Core>)
    requires |c.results| == CountOf(c.lim, places) && |seen| <= |places| && Sliced(c.lim, s, pending, seen)
    requires !s.responseLimitReached
    ensures var taken := |s.matches| + |pending|;
            taken <= |c.results| && (taken < |c.results| ==> |seen| <= c.lim.cursor + taken)
    ensures !s.truncated ==> |seen| <= c.lim.cursor + c.lim.maxResults
  {
    var taken := |s.matches| + |pending|;
    assert |ItemCores(s.matches) + PendingCores(pending)| == taken;
    assert |Page(seen, c.lim.cursor, taken)| == taken;
  }

  lemma LineIsRead(c: Course, places: seq<Place>, spot: Spot, s: State, pending: seq<Pending>, seen: seq<Core>)
    requires |c.results| == CountOf(c.lim, places) && |seen| <= |places| && Unseen(places, |seen|, spot)
    requires s.responseLimitReached || Sliced(c.lim, s, pending, seen)
    requires StopsWhenCut(c.lim, s) && !s.stop && spot.line <= |spot.file.lines|
    ensures spot.line <= LastAt(c.lim, places, spot)
  {
    if !c.lim.calculateTotal && !s.responseLimitReached {
      NextIsUnseen(c, places, s, pending, seen);
    }
  }

  lemma LastReadIsLastAt(c: Course, files: seq<File>, places: seq<Place>, spot: Spot, i: nat)
    requires Planned(c, files, places) && i < |c.results| && FoundIn(spot, c.results[i])
    ensures c.results[i].lastRead == LastAt(c.lim, places, spot)
  {
    assert IsResult(c, files, places, i);
  }

  /** When the rejected result has its context, the results behind it that come up are exactly the pending ones. */
  lemma ReachIsHere(c: Course, files: seq<File>, places: seq<Place>, spot: Spot, unseen: nat, k: nat, end: nat)
    requires Planned(c, files, places) && k <= c.rejected < end <= |c.results|
    requires FoundInOrder(spot, c.results[k..end])
    requires end < |c.results| ==> unseen <= c.lim.cursor + end
    requires Unseen(places, unseen, spot)
    requires var full := c.results[c.rejected].place.core.line + c.lim.contextLines;
             full == spot.line || (spot.line < full && (end == |c.results| || EndsHere(places, unseen, spot)))
    requires forall i :: c.rejected < i < end ==>
               c.results[i].place.core.line < c.results[c.rejected].place.core.line + c.lim.contextLines
    ensures end == c.reach
  {
    var coming, r := c.results[k..end], c.rejected;
    var behind := if c.reach < |c.results| then Some(c.results[c.reach]) else None;
    assert FoundIn(spot, coming[r - k]);
    forall i | r < i < end
      ensures Waits(c.lim, c.results[r], c.results[i])
    {
      assert FoundIn(spot, coming[i - k]) && coming[r - k].place.core.line <= coming[i - k].place.core.line;
    }
    if end < |c.results| {
      assert IsResult(c, files, places, end);
      assert !Waits(c.lim, c.results[r], c.results[end]);
    }
  }

  /** No match of this scan is left. */
  ghost predicate EndsHere(places: seq<Place>, seen: nat, spot: Spot) {
    forall i :: seen <= i < |places| ==> !InScan(spot, places[i])
  }

  /** Results whose context ends on the current line have the context they are due. */
  lemma CompleteAreDue(c: Course, files: seq<File>, places: seq<Place>, spot: Spot, k: nat, m: nat)
    requires Planned(c, files, places) && k + m <= |c.results| && spot.line <= LastAt(c.lim, places, spot)
    requires k <= c.rejected || c.lim.calculateTotal
    requires forall i {:trigger c.results[i]} :: k <= i < k + m ==>
               FoundIn(spot, c.results[i]) && c.results[i].place.core.line + c.lim.contextLines == spot.line
    ensures AreDue(c, k, m, spot.line)
  {
    forall i | k <= i < k + m
      ensures IsDue(c, i, spot.line)
    {
      LastReadIsLastAt(c, files, places, spot, i);
      if c.rejected < i && !c.lim.calculateTotal {
        assert c.results[c.rejected].place.core.line + c.lim.contextLines == spot.line;
      }
    }
  }

  lemma RestStillWaits(lim: Limits, spot: Spot, coming: seq<Result>, pending: seq<Pending>, m: nat)
    requires AreWaiting(lim, coming, pending, spot.line) && FoundInOrder(spot, coming) && m <= |pending|
    ensures AreWaiting(lim, coming[m..], pending[m..], spot.line) && FoundInOrder(spot, coming[m..])
  {
    var rest := coming[m..];
    forall j | 0 <= j < |rest|
      ensures pending[m..][j] == Waiting(lim, rest[j], spot.line) && FoundIn(spot, rest[j])
    {
      assert pending[m + j] == Waiting(lim, coming[m + j], spot.line) && FoundIn(spot, coming[m + j]);
    }
    forall i, j | 0 <= i < j < |rest|
      ensures rest[i].place.core.line <= rest[j].place.core.line
    {
      assert coming[m + i].place.core.line <= coming[m + j].place.core.line;
    }
  }

  /** The first `m` of the results that wait have their context complete with the current line. */
  lemma CompleteOnes(lim: Limits, spot: Spot, coming: seq<Result>, withLine: seq<Pending>, m: nat)
    requires |coming| == |withLine| && m <= |coming| && Collect(lim, spot, coming)
    requires forall j :: 0 <= j < |withLine| ==> |withLine[j].after| == spot.line + 1 - coming[j].place.core.line
    requires forall j :: 0 <= j < m ==> lim.contextLines <= |withLine[j].after|
    requires forall j :: m <= j < |withLine| ==> |withLine[j].after| < lim.contextLines
    ensures forall j :: 0 <= j < m ==> coming[j].place.core.line + lim.contextLines == Next(spot).line
    ensures Collect(lim, Next(spot), coming[m..])
  {
    forall j | 0 <= j < m
      ensures coming[j].place.core.line + lim.contextLines == Next(spot).line
    {
      assert lim.contextLines <= |withLine[j].after|;
    }
    forall j | 0 <= j < |coming[m..]|
      ensures Next(spot).line < coming[m..][j].place.core.line + lim.contextLines
    {
      assert |withLine[m + j].after| < lim.contextLines;
    }
  }

  /** What a line does to the pending results: `m` of them come up, the others wait on. */
  lemma LineMovesPending(lim: Limits, spot: Spot, s: State, coming: seq<Result>, pending: seq<Pending>)
    returns (withLine: seq<Pending>, s': State, m: nat)
    requires AreWaiting(lim, coming, pending, spot.line) && FoundInOrder(spot, coming) && Collect(lim, spot, coming)
    requires spot.line < |spot.file.lines|
    ensures withLine == WithLine(lim, pending, spot.file.lines[spot.line].text) && m <= |withLine| == |coming|
    ensures Flush(lim, s, withLine, true) == (s', withLine[m..]) && Descending(withLine)
    ensures AreWaiting(lim, coming, withLine, Next(spot).line) && FoundInOrder(Next(spot), coming)
    ensures forall j :: 0 <= j < m ==> coming[j].place.core.line + lim.contextLines == Next(spot).line
    ensures Collect(lim, Next(spot), coming[m..])
  {
    withLine := WithLine(lim, pending, spot.file.lines[spot.line].text);
    LineIsTaken(lim, spot, coming, pending, withLine);
    StillInOrder(spot, coming);
    EarlierHaveMore(spot, coming, withLine);
    FlushSplits(lim, s, withLine);
    var flushed := Flush(lim, s, withLine, true);
    s', m := flushed.0, |withLine| - |flushed.1|;
    CompleteOnes(lim, spot, coming, withLine, m);
  }

  /** A rejected result that comes up with the line has exactly the pending ones behind it. */
  lemma ReachWithLine(c: Course, files: seq<File>, places: seq<Place>, spot: Spot, s: State, pending: seq<Pending>,
                      seen: seq<Core>, k: nat, end: nat)
    requires Planned(c, files, places) && !s.responseLimitReached && Sliced(c.lim, s, pending, seen)
    requires |seen| <= |places| && Unseen(places, |seen|, spot)
    requires k == |s.matches| && end == k + |pending| && k <= c.rejected < end <= |c.results|
    requires FoundInOrder(spot, c.results[k..end])
    requires c.results[c.rejected].place.core.line + c.lim.contextLines == spot.line
    requires forall j :: 0 <= j < end - k ==> c.results[k..end][j].place.core.line < spot.line
    ensures end == c.reach
  {
    NextIsUnseen(c, places, s, pending, seen);
    forall i | c.rejected < i < end
      ensures c.results[i].place.core.line < spot.line
    {
      assert c.results[k..end][i - k].place.core.line < spot.line;
    }
    ReachIsHere(c, files, places, spot, |seen|, k, end);
  }

  /** The invariant of a scan in which line `spot.line` has arrived. */
  ghost predicate Kept(c: Course, files: seq<File>, places: seq<Place>, spot: Spot, scan: Scan, seen: seq<Core>) {
    && Planned(c, files, places) && Exact(c, places, spot, scan)
    && |seen| <= |places|
    && (scan.state.responseLimitReached || Sliced(c.lim, scan.state, scan.pending, seen))
  }

  lemma StopsWithLine(c: Course, places: seq<Place>, spot: Spot, s: State, withLine: seq<Pending>, s': State,
                      kept: seq<Pending>)
    requires ContentSearch(c.lim) && Flush(c.lim, s, withLine, true) == (s', kept)
    requires StopsWhenCut(c.lim, s) && !s.stop && c.rejected <= |c.results|
    requires spot.line <= LastAt(c.lim, places, spot)
    requires !s.responseLimitReached && s'.responseLimitReached ==>
               c.rejected < |c.results| && spot.line == c.results[c.rejected].place.core.line + c.lim.contextLines
    ensures StopsWhenCut(c.lim, s') && StopsInTime(c, places, spot, s', kept)
    ensures s'.stop ==> s'.responseLimitReached
  {
    FlushStopsWhenCut(c.lim, s, withLine, true);
    FlushKeepsFlags(c.lim, s, withLine, true);
  }

  /** The first `m` of the pending results come up with the line. */
  lemma LineOffers(c: Course, files: seq<File>, places: seq<Place>, spot: Spot, s: State, pending: seq<Pending>,
                   withLine: seq<Pending>, s': State, k: nat, m: nat)
    requires Planned(c, files, places) && c.lim.contextLines != 0 && Follows(c, s, pending) && k == Came(c, s, pending)
    requires |withLine| == |pending| && m <= |withLine| && k + |pending| <= |c.results| && Descending(withLine)
    requires Flush(c.lim, s, withLine, true) == (s', withLine[m..])
    requires AreWaiting(c.lim, c.results[k..k + |pending|], withLine, spot.line) && AreDue(c, k, m, spot.line)
    requires k <= c.rejected < k + m ==> k + |pending| == c.reach
    ensures Follows(c, s', withLine[m..]) && Came(c, s', withLine[m..]) == k + m
  {
    FlushOffers(c.lim, s, withLine, true);
    DueAreOffered(c, k, m, spot.line, withLine);
    assert Follows(c, s, withLine);
    OfferingFollows(c, s, withLine, s', withLine[m..], k, m);
  }

  /** The results that come up with the line have their context, and a rejected one has all that wait behind it. */
  lemma LineIsReady(c: Course, files: seq<File>, places: seq<Place>, spot: Spot, s: State, pending: seq<Pending>,
                    seen: seq<Core>, k: nat, coming: seq<Result>, m: nat)
    requires Planned(c, files, places) && (s.responseLimitReached <==> c.rejected < k)
    requires k + |pending| <= |c.results| && coming == c.results[k..k + |pending|] && m <= |pending|
    requires StopsWhenCut(c.lim, s) && !s.stop && |seen| <= |places|
    requires !s.responseLimitReached ==> k == |s.matches|
    requires s.responseLimitReached || Sliced(c.lim, s, pending, seen)
    requires spot.line < |spot.file.lines| && Unseen(places, |seen|, Next(spot))
    requires FoundInOrder(Next(spot),
                          coming) && forall j :: 0 <= j < |coming| ==> coming[j].place.core.line <= spot.line
    requires forall j :: 0 <= j < m ==> coming[j].place.core.line + c.lim.contextLines == spot.line + 1
    ensures spot.line + 1 <= LastAt(c.lim, places, Next(spot)) && AreDue(c, k, m, spot.line + 1)
    ensures k <= c.rejected < k + m ==>
              && k + |pending| == c.reach
              && c.results[c.rejected].place.core.line + c.lim.contextLines == spot.line + 1
  {
    LineIsRead(c, places, Next(spot), s, pending, seen);
    LineIsDue(c, files, places, spot, s, coming, k, m);
    if k <= c.rejected < k + m {
      assert coming[c.rejected - k].place.core.line + c.lim.contextLines == spot.line + 1;
      ReachWithLine(c, files, places, Next(spot), s, pending, seen, k, k + |pending|);
    }
  }

  /** The response is right again after the line, and the search stops only where it has turned a result away. */
  lemma LineFollows(c: Course, files: seq<File>, places: seq<Place>, spot: Spot, s: State, pending: seq<Pending>,
                    k: nat, withLine: seq<Pending>, s': State, m: nat)
    requires ContentSearch(c.lim) && c.lim.contextLines != 0 && Planned(c, files, places)
    requires Follows(c, s, pending) && k == Came(c, s, pending) && k + |pending| <= |c.results|
    requires StopsWhenCut(c.lim, s) && !s.stop && spot.line <= LastAt(c.lim, places, spot)
    requires |withLine| == |pending| && m <= |withLine| && Descending(withLine)
    requires Flush(c.lim, s, withLine, true) == (s', withLine[m..])
    requires AreWaiting(c.lim, c.results[k..k + |pending|], withLine, spot.line) && AreDue(c, k, m, spot.line)
    requires k <= c.rejected < k + m ==>
               && k + |pending| == c.reach
               && c.results[c.rejected].place.core.line + c.lim.contextLines == spot.line
    ensures Follows(c, s', withLine[m..]) && Came(c, s', withLine[m..]) == k + m
    ensures StopsWhenCut(c.lim, s') && StopsInTime(c, places, spot, s', withLine[m..])
    ensures s'.stop ==> s'.responseLimitReached
  {
    LineOffers(c, files, places, spot, s, pending, withLine, s', k, m);
    StopsWithLine(c, places, spot, s, withLine, s', withLine[m..]);
  }

  lemma IsExact(c: Course, places: seq<Place>, spot: Spot, scan: Scan, k: nat, coming: seq<Result>)
    requires c.rejected <= |c.results| && k + |scan.pending| <= |c.results|
    requires coming == c.results[k..k + |scan.pending|]
    requires Follows(c, scan.state, scan.pending) && Came(c, scan.state, scan.pending) == k
    requires AreWaiting(c.lim, coming, scan.pending, spot.line) && FoundInOrder(spot, coming)
    requires Collect(c.lim, spot, coming) && StopsWhenCut(c.lim, scan.state)
    requires StopsInTime(c, places, spot, scan.state, scan.pending)
    ensures Exact(c, places, spot, scan)
  {
  }

  lemma LineArrivesExact(c: Course, files: seq<File>, places: seq<Place>, spot: Spot, scan: Scan, seen: seq<Core>)
    returns (next: Scan)
    requires ContentSearch(c.lim) && c.lim.contextLines != 0 && Kept(c, files, places, spot, scan, seen)
    requires !scan.state.stop && spot.line < |spot.file.lines| && Unseen(places, |seen|, Next(spot))
    ensures next == LineArrives(c.lim, scan, spot.file.lines[spot.line].text)
    ensures Exact(c, places, Next(spot), next) && (next.state.stop ==> next.state.responseLimitReached)
  {
    CameFits(c, files, places, scan.state, scan.pending, seen);
    var k := Came(c, scan.state, scan.pending);
    next := LineArrivesAt(c, files, places, spot, scan, seen, k, c.results[k..k + |scan.pending|]);
  }

  lemma LineArrivesAt(c: Course, files: seq<File>, places: seq<Place>, spot: Spot, scan: Scan, seen: seq<Core>, k: nat,
                      coming: seq<Result>)
    returns (next: Scan)
    requires ContentSearch(c.lim) && c.lim.contextLines != 0 && Planned(c, files, places)
    requires Follows(c, scan.state, scan.pending) && k == Came(c, scan.state, scan.pending)
    requires k + |scan.pending| <= |c.results| && coming == c.results[k..k + |scan.pending|]
    requires AreWaiting(c.lim, coming, scan.pending, spot.line) && FoundInOrder(spot, coming)
    requires Collect(c.lim, spot, coming) && StopsWhenCut(c.lim, scan.state) && !scan.state.stop
    requires |seen| <= |places| && (scan.state.responseLimitReached || Sliced(c.lim, scan.state, scan.pending, seen))
    requires spot.line < |spot.file.lines| && Unseen(places, |seen|, Next(spot))
    ensures next == LineArrives(c.lim, scan, spot.file.lines[spot.line].text)
    ensures Exact(c, places, Next(spot), next) && (next.state.stop ==> next.state.responseLimitReached)
  {
    var withLine, s', m := LineMovesPending(c.lim, spot, scan.state, coming, scan.pending);
    next := scan.(state := s', pending := withLine[m..]);
    LineIsReadyAt(c, files, places, spot, scan.state, scan.pending, seen, k, coming, m);
    AfterLine(c, files, places, Next(spot), scan, k, coming, withLine, s', m);
  }

  lemma LineIsReadyAt(c: Course, files: seq<File>, places: seq<Place>, spot: Spot, s: State, pending: seq<Pending>,
                      seen: seq<Core>, k: nat, coming: seq<Result>, m: nat)
    requires Planned(c, files, places) && Follows(c, s, pending) && k == Came(c, s, pending)
    requires k + |pending| <= |c.results| && coming == c.results[k..k + |pending|] && m <= |pending|
    requires StopsWhenCut(c.lim, s) && !s.stop && |seen| <= |places|
    requires s.responseLimitReached || Sliced(c.lim, s, pending, seen)
    requires spot.line < |spot.file.lines| && Unseen(places, |seen|, Next(spot))
    requires FoundInOrder(spot, coming) && FoundInOrder(Next(spot), coming)
    requires forall j :: 0 <= j < m ==> coming[j].place.core.line + c.lim.contextLines == Next(spot).line
    ensures Next(spot).line <= LastAt(c.lim, places, Next(spot)) && AreDue(c, k, m, Next(spot).line)
    ensures k <= c.rejected < k + m ==>
              && k + |pending| == c.reach
              && c.results[c.rejected].place.core.line + c.lim.contextLines == Next(spot).line
  {
    LinesAreAbove(spot, coming);
    LineIsReady(c, files, places, spot, s, pending, seen, k, coming, m);
  }

  lemma AfterLine(c: Course, files: seq<File>, places: seq<Place>, spot: Spot, scan: Scan, k: nat, coming: seq<Result>,
                  withLine: seq<Pending>, s': State, m: nat)
    requires ContentSearch(c.lim) && c.lim.contextLines != 0 && Planned(c, files, places)
    requires Follows(c, scan.state, scan.pending) && k == Came(c, scan.state, scan.pending)
    requires k + |scan.pending| <= |c.results| && coming == c.results[k..k + |scan.pending|]
    requires StopsWhenCut(c.lim, scan.state) && !scan.state.stop && spot.line <= LastAt(c.lim, places, spot)
    requires |withLine| == |scan.pending| && m <= |withLine| && Descending(withLine)
    requires Flush(c.lim, scan.state, withLine, true) == (s', withLine[m..])
    requires AreWaiting(c.lim, coming, withLine, spot.line) && AreDue(c, k, m, spot.line)
    requires FoundInOrder(spot, coming) && Collect(c.lim, spot, coming[m..])
    requires k <= c.rejected < k + m ==>
               && k + |scan.pending| == c.reach
               && c.results[c.rejected].place.core.line + c.lim.contextLines == spot.line
    ensures Exact(c, places, spot, scan.(state := s', pending := withLine[m..]))
    ensures s'.stop ==> s'.responseLimitReached
  {
    LineFollows(c, files, places, spot, scan.state, scan.pending, k, withLine, s', m);
    RestStillWaits(c.lim, spot, coming, withLine, m);
    assert coming[m..] == c.results[k + m..k + |scan.pending|];
    IsExact(c, places, spot, scan.(state := s', pending := withLine[m..]), k + m, coming[m..]);
  }

  lemma CameFits(c: Course, files: seq<File>, places: seq<Place>, s: State, pending: seq<Pending>, seen: seq<Core>)
    requires Planned(c, files, places) && Follows(c, s, pending) && |seen| <= |places|
    requires s.responseLimitReached || Sliced(c.lim, s, pending, seen)
    ensures Came(c, s, pending) + |pending| <= |c.results|
  {
    if !s.responseLimitReached {
      NextIsUnseen(c, places, s, pending, seen);
    }
  }

  lemma LinesAreAbove(spot: Spot, coming: seq<Result>)
    requires FoundInOrder(spot, coming)
    ensures forall j :: 0 <= j < |coming| ==> coming[j].place.core.line <= spot.line
  {
    forall j | 0 <= j < |coming|
      ensures coming[j].place.core.line <= spot.line
    {
      assert FoundIn(spot, coming[j]);
    }
  }

  lemma LineIsDue(c: Course, files: seq<File>, places: seq<Place>, spot: Spot, s: State, coming: seq<Result>, k: nat,
                  m: nat)
    requires Planned(c, files, places) && StopsWhenCut(c.lim, s) && !s.stop
    requires s.responseLimitReached <==> c.rejected < k
    requires k + |coming| <= |c.results| && coming == c.results[k..k + |coming|] && m <= |coming|
    requires spot.line + 1 <= LastAt(c.lim, places, Next(spot)) && FoundInOrder(Next(spot), coming)
    requires forall j :: 0 <= j < m ==> coming[j].place.core.line + c.lim.contextLines == spot.line + 1
    ensures AreDue(c, k, m, spot.line + 1)
  {
    forall i {:trigger c.results[i]} | k <= i < k + m
      ensures FoundIn(Next(spot), c.results[i])
      ensures c.results[i].place.core.line + c.lim.contextLines == spot.line + 1
    {
      assert c.results[i] == coming[i - k];
    }
    CompleteAreDue(c, files, places, Next(spot), k, m);
  }
}
