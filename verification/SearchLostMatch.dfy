/**
 The input that shows where paging ends: with context lines, a result that does not fit the response is overtaken by
 a smaller one behind it, and following the next cursor lists that one twice and the other never.
 */
module SearchLostMatch {
  import opened Options
  import opened SearchScan
  import opened SearchPaging
  import opened SearchReference
  import opened SearchPages

  const First := "aaaaa"
  const Second := "bbbbbbb"

  const A := Core("f", 1, 0, Found(0, 5))
  const B := Core("f", 2, 0, Found(0, 6))
  const C := Core("f", 2, 0, Found(6, 7))

  /** The size of an item is taken to be the length of its match. */
  const Lim := Limits(9, 0, 1, 9, false, false, false, false, 7, (item: Item) => LengthOf(item.core.found),
                      (line: string) => (line, false))

  function LengthOf(found: Found): nat {
    if found.start <= found.end then found.end - found.start else 0
  }

  const TheFile := File("f", [Line(First, [[Found(0, 5)]]), Line(Second, [[Found(0, 6), Found(6, 7)]])])

  const ItemA := Item(A, Some([]), None, false, false)
  const ItemB := Item(B, Some([First]), None, false, false)
  const ItemC := Item(C, Some([First]), None, false, false)
  const ListedA := ItemA.(after := Some([Second]))
  const ListedC := ItemC.(after := Some([]))

  const Waiting := Scan(Initial(1).(queryCounts := [1], matchedFiles := 1), Tracker(1, true), [First],
                        [Pending(ItemA, [], false)])

  const TwoWait := Scan(
    Waiting.state.(queryCounts := [3], matches := [ListedA], responseBytesEstimate := 5), Tracker(3, true), [Second],
    [Pending(ItemB, [], false), Pending(ItemC, [], false)])

  /** After the first line its match waits for the line behind it. */
  lemma FirstLine()
    ensures OnLine(Lim, Scan(Initial(1), Tracker(0, false), [], []), "f", 1, 0, TheFile.lines[0]) == Waiting
  {
    var start := Scan(Initial(1), Tracker(0, false), [], []);
    assert Initial(1).queryCounts == [0] && [0][0 := 1] == [1];
    assert WithLine(Lim, [], First) == [] && LineArrives(Lim, start, First) == start;
    assert Filter(Lim, Initial(1), Tracker(0, false), A, 0) == Filtered(Waiting.state, Tracker(1, true), Take);
    assert Bounded(Lim, []) == [] && !AnyCut(Lim, []);
    assert [] + [Pending(ItemA, [], false)] == Waiting.pending;
    assert OnFound(Lim, start, A) == (Waiting.(before := []), false);
    assert OnFounds(Lim, start, "f", 1, 0, [Found(0, 5)]) == Waiting.(before := []);
  }

  /** The second line completes the first result, and its own matches wait. */
  lemma SecondLine()
    ensures OnLine(Lim, Waiting, "f", 2, 0, TheFile.lines[1]) == TwoWait
  {
    var listed := Waiting.state.(matches := [ListedA], responseBytesEstimate := 5);
    var arrived := Waiting.(state := listed, pending := []);
    assert [] + [Second] == [Second];
    assert WithLine(Lim, Waiting.pending, Second) == [Pending(ItemA, [Second], false)];
    assert Finished(Pending(ItemA, [Second], false)) == ListedA;
    assert EmitMatch(Lim, Waiting.state, ListedA) == listed;
    assert Flush(Lim, Waiting.state, [Pending(ItemA, [Second], false)], true) == (listed, []);
    assert LineArrives(Lim, Waiting, Second) == arrived;
    SecondMatches(listed);
    assert Remember(Lim, [First], Second) == [Second];
  }

  lemma SecondMatches(listed: State)
    requires listed == Waiting.state.(matches := [ListedA], responseBytesEstimate := 5)
    ensures OnFounds(Lim, Scan(listed, Tracker(1, true), [First], []), "f", 2, 0, [Found(0, 6), Found(6, 7)])
         == TwoWait.(before := [First])
  {
    var arrived := Scan(listed, Tracker(1, true), [First], []);
    assert [1][0 := 2] == [2] && [2][0 := 3] == [3];
    assert Bounded(Lim, [First]) == [First] && !AnyCut(Lim, [First]);
    var one := Scan(listed.(queryCounts := [2]), Tracker(2, true), [First], [Pending(ItemB, [], false)]);
    assert Filter(Lim, listed, Tracker(1, true), B, 0) == Filtered(one.state, Tracker(2, true), Take);
    assert [] + [Pending(ItemB, [], false)] == one.pending;
    assert OnFound(Lim, arrived, B) == (one, false);
    assert Filter(Lim, one.state, Tracker(2, true), C, 1) == Filtered(TwoWait.state, Tracker(3, true), Take);
    assert one.pending + [Pending(ItemC, [], false)] == TwoWait.pending;
    assert OnFound(Lim, one, C) == (TwoWait.(before := [First]), false);
    assert OnFounds(Lim, one, "f", 2, 0, [Found(6, 7)]) == TwoWait.(before := [First]);
  }

  /** At the end of the file the first waiting result does not fit, and the second one does. */
  lemma AtTheEnd() returns (end: State)
    ensures Flush(Lim, TwoWait.state, TwoWait.pending, false).0 == end
    ensures end.matches == [ListedA, ListedC] && end.truncated && end.responseLimitReached
    ensures |end.queryCounts| == 1
  {
    var limited := HitLimit(Lim, TwoWait.state.(responseLimitReached := true));
    end := limited.(matches := [ListedA, ListedC], responseBytesEstimate := 6);
    assert EmitMatch(Lim, TwoWait.state, Finished(Pending(ItemB, [], false))) == limited;
    assert Finished(Pending(ItemC, [], false)) == ListedC;
    assert EmitMatch(Lim, limited, ListedC) == end;
    assert Flush(Lim, limited, [Pending(ItemC, [], false)], false) == (end, []);
    assert TwoWait.pending[1..] == [Pending(ItemC, [], false)];
  }

  lemma TheMatches()
    ensures AllMatches(Lim, 1, [TheFile], 0) == [A, B, C]
  {
    assert LineCores("f", 1, 0, [Found(0, 5)]) == [A];
    assert LineCores("f", 2, 0, [Found(0, 6), Found(6, 7)]) == [B, C];
    assert LinesCores(TheFile, 0, 2) == [];
    assert LinesCores(TheFile, 0, 1) == [B, C];
    assert LinesCores(TheFile, 0, 0) == [A, B, C];
    assert QueriesCores(TheFile, 1, 1) == [];
    assert QueriesCores(TheFile, 1, 0) == [A, B, C];
    assert AllMatches(Lim, 1, [TheFile], 1) == [];
  }

  /** The matches of the file are in order and inside its lines. */
  lemma TheFileIsPossible()
    ensures FilesInOrder([TheFile])
    ensures LengthOf(A.found) == |First| && B.found.end <= C.found.end <= |Second|
  {
    forall n, query: nat | 0 <= n < |TheFile.lines|
      ensures InOrder(FoundsOf(TheFile.lines[n], query))
    {
      assert n == 0 || n == 1;
    }
  }

  lemma FirstPage() returns (r: State)
    ensures r == Search(Lim, 1, [TheFile])
    ensures ItemCores(r.matches) == [A, C] && r.truncated && r.responseLimitReached
  {
    FirstLine();
    SecondLine();
    r := AtTheEnd();
    var start := Scan(Initial(1), Tracker(0, false), [], []);
    assert OnLines(Lim, TwoWait, TheFile, 0, 2) == TwoWait;
    assert OnLines(Lim, Waiting, TheFile, 0, 1) == TwoWait;
    assert OnLines(Lim, start, TheFile, 0, 0) == TwoWait;
    assert OnQuery(Lim, Initial(1), Tracker(0, false), TheFile, 0) == (r, Tracker(3, true));
    assert |Initial(1).queryCounts| == |r.queryCounts| == 1;
    assert OnQueries(Lim, Initial(1), Tracker(0, false), TheFile, 0) == r;
    assert OnFile(Lim, Initial(1), TheFile) == r;
    assert OnFiles(Lim, r, [TheFile], 1) == r;
  }

  // ----- the next page -----

  const Lim2 := At(Lim, 2)

  const Skipped := Scan(Initial(1).(queryCounts := [1], matchedFiles := 1, skipped := 1), Tracker(1, true), [First], [])

  const LastWaits := Scan(Initial(1).(queryCounts := [3], matchedFiles := 1, skipped := 2), Tracker(3, true), [Second],
                          [Pending(ItemC, [], false)])

  lemma SkippedLine()
    ensures OnLine(Lim2, Scan(Initial(1), Tracker(0, false), [], []), "f", 1, 0, TheFile.lines[0]) == Skipped
  {
    var start := Scan(Initial(1), Tracker(0, false), [], []);
    assert Initial(1).queryCounts == [0] && [0][0 := 1] == [1];
    assert WithLine(Lim2, [], First) == [] && LineArrives(Lim2, start, First) == start;
    assert Filter(Lim2, Initial(1), Tracker(0, false), A, 0) == Filtered(Skipped.state, Tracker(1, true), PassOver);
    assert OnFound(Lim2, start, A) == (Skipped.(before := []), false);
    assert OnFounds(Lim2, start, "f", 1, 0, [Found(0, 5)]) == Skipped.(before := []);
  }

  lemma LastLine()
    ensures OnLine(Lim2, Skipped, "f", 2, 0, TheFile.lines[1]) == LastWaits
  {
    var s := Skipped.state;
    assert [1][0 := 2] == [2] && [2][0 := 3] == [3];
    assert WithLine(Lim2, [], Second) == [] && LineArrives(Lim2, Skipped, Second) == Skipped;
    var one := Skipped.(state := s.(queryCounts := [2], skipped := 2), tracker := Tracker(2, true));
    assert Filter(Lim2, s, Tracker(1, true), B, 0) == Filtered(one.state, Tracker(2, true), PassOver);
    assert OnFound(Lim2, Skipped, B) == (one, false);
    assert Bounded(Lim2, [First]) == [First] && !AnyCut(Lim2, [First]);
    assert Filter(Lim2, one.state, Tracker(2, true), C, 0) == Filtered(LastWaits.state, Tracker(3, true), Take);
    assert [] + [Pending(ItemC, [], false)] == LastWaits.pending;
    assert OnFound(Lim2, one, C) == (LastWaits.(before := [First]), false);
    assert OnFounds(Lim2, one, "f", 2, 0, [Found(6, 7)]) == LastWaits.(before := [First]);
    assert OnFounds(Lim2, Skipped, "f", 2, 0, [Found(0, 6), Found(6, 7)]) == LastWaits.(before := [First]);
    assert Remember(Lim2, [First], Second) == [Second];
  }

  lemma SecondPage() returns (r: State)
    ensures r == Search(Lim2, 1, [TheFile])
    ensures ItemCores(r.matches) == [C] && !r.truncated
  {
    SkippedLine();
    LastLine();
    r := LastWaits.state.(matches := [ListedC], responseBytesEstimate := 1);
    var start := Scan(Initial(1), Tracker(0, false), [], []);
    assert Finished(Pending(ItemC, [], false)) == ListedC;
    assert EmitMatch(Lim2, LastWaits.state, ListedC) == r;
    assert Flush(Lim2, LastWaits.state, LastWaits.pending, false) == (r, []);
    assert OnLines(Lim2, LastWaits, TheFile, 0, 2) == LastWaits;
    assert OnLines(Lim2, Skipped, TheFile, 0, 1) == LastWaits;
    assert OnLines(Lim2, start, TheFile, 0, 0) == LastWaits;
    assert OnQuery(Lim2, Initial(1), Tracker(0, false), TheFile, 0) == (r, Tracker(3, true));
    assert |Initial(1).queryCounts| == |r.queryCounts| == 1;
    assert OnQueries(Lim2, Initial(1), Tracker(0, false), TheFile, 0) == r;
    assert OnFile(Lim2, Initial(1), TheFile) == r;
    assert OnFiles(Lim2, r, [TheFile], 1) == r;
  }

  /**
   Of three matches the second is overtaken by the third: the first page lists the first and the third, the next
   cursor is the place of the third, and so following it lists the third twice and the second never.
   */
  lemma ContextCanLoseMatch()
    ensures FilesInOrder([TheFile]) && AllMatches(Lim, 1, [TheFile], 0) == [A, B, C]
    ensures ItemCores(Search(Lim, 1, [TheFile]).matches) == [A, C] && Search(Lim, 1, [TheFile]).truncated
    ensures ItemCores(Search(At(Lim, 2), 1, [TheFile]).matches) == [C]
    ensures Follow(Pages(Lim, 1, [TheFile]), 0, 9) == [A, C, C]
    ensures !PlanFor(Lim, 1, [TheFile]).NothingOvertakes()
  {
    TheFileIsPossible();
    TheMatches();
    var first := FirstPage();
    var second := SecondPage();
    assert |ItemCores(first.matches)| == |first.matches| == 2;
    assert Follow(Pages(Lim, 1, [TheFile]), 2, 8) == [C];
    assert [A, C] + [C] == [A, C, C];
    assert Page([A, B, C], 0, 2)[1] == B;
    PageIsSliceExactlyWhen(Lim, 1, [TheFile]);
  }
}
