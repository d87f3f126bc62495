/**
 A whole list of edits, line edits and snapshots included, does to a text with Windows line endings what it does
 to the text with plain newlines.
 */
module EditBatchEndings {
  import opened Options
  import opened TextLines
  import opened EditContract
  import opened NewlineStyle
  import opened LineRanges
  import opened TextSplices
  import opened TextEdits
  import opened EditGuarantees
  import opened EditMatching
  import opened DiffRoundTrip
  import opened DiffWindowsEndings
  import opened EditWindowsEndings

  // ----- line ranges -----

  function WindowsEnding(ending: string): string {
    if ending == "" then "" else "\r\n"
  }

  lemma EndingStands(text: string, i: nat, other: string, p: nat, q: nat)
    requires StandsAlike(text, i, other, p, q) && '\r' !in text
    ensures NewlineEndingAt(other, q) == WindowsEnding(NewlineEndingAt(text, i + 1))
  {
  }

  lemma EndingAlike(text: string, end: nat)
    requires end <= |text| && '\r' !in text
    ensures Place(text, end) <= |ToCrlf(text)|
    ensures NewlineEndingAt(ToCrlf(text), Place(text, end)) == WindowsEnding(NewlineEndingAt(text, end))
  {
    PlaceOfEnd(text);
    if 0 < end {
      Stands(text, end - 1);
      EndingStands(text, end - 1, ToCrlf(text), Place(text, end - 1), Place(text, end));
    }
  }

  function PlacedLines(text: string, range: LineRange): LineRange {
    LineRange(Place(text, range.start), Place(text, range.end), WindowsEnding(range.trailing),
              WindowsEnding(range.preceding))
  }

  /** The places of what lies before and behind a range without its newlines. */
  lemma LineRangeAlike(text: string, first: int, last: int)
    requires '\r' !in text
    ensures LinesExist(ToCrlf(text), first, last) <==> LinesExist(text, first, last)
    ensures LinesExist(text, first, last) ==>
              LineEditRange(ToCrlf(text), first, last).value
                == PlacedLines(text, LineEditRange(text, first, last).value)
  {
    LinesAlike(text, first, last);
    if LinesExist(text, first, last) {
      var range := LineOffsets(text, first, last).value;
      OffsetsInText(text, first, last);
      PlacesInOrder(text, range.start, range.end);
      EndingAlike(text, range.start);
      EndingAlike(text, range.end);
    }
  }

  /** In front of a newline, if one ends there. */
  lemma EndingInFront(text: string, end: nat, ending: string)
    requires end <= |text| && '\r' !in text && (ending == "" || ending == NewlineEndingAt(text, end))
    ensures |ending| <= end && |WindowsEnding(ending)| <= Place(text, end)
    ensures Place(text, end) - |WindowsEnding(ending)| == Place(text, end - |ending|)
  {
    if ending != "" {
      Stands(text, end - 1);
    }
  }

  lemma LineRangeInText(text: string, first: int, last: int)
    requires '\r' !in text && LinesExist(text, first, last)
    ensures var range := LineEditRange(text, first, last).value;
            && range.start <= range.end <= |text|
            && (range.trailing == "" || range.trailing == NewlineEndingAt(text, range.end))
            && range.preceding == NewlineEndingAt(text, range.start)
            && |range.trailing| <= range.end && range.start <= range.end - |range.trailing|
            && |range.preceding| <= range.start
  {
    var range := LineEditRange(text, first, last).value;
    EndingInFront(text, range.end, range.trailing);
    EndingInFront(text, range.start, range.preceding);
  }

  // ----- line edits -----

  lemma PutAlike(text: string, start: nat, middle: string, end: nat)
    requires start <= end <= |text|
    ensures Place(text, start) <= Place(text, end) <= |ToCrlf(text)|
    ensures Front(ToCrlf(text), Place(text, start)) + ToCrlf(middle) + Back(ToCrlf(text), Place(text, end))
         == ToCrlf(Front(text, start) + middle + Back(text, end))
  {
    PlacesInOrder(text, start, end);
    CutAlike(text, start);
    CutAlike(text, end);
    ToCrlfOfTwo(text[..start] + middle, text[end..]);
    ToCrlfOfTwo(text[..start], middle);
  }

  lemma ContentOf(text: string, range: LineRange)
    requires range.start <= range.ContentEnd() <= |text|
    ensures Content(text, range) == text[range.start..range.ContentEnd()]
  {
  }

  lemma ContentEndAlike(text: string, first: int, last: int) returns (range: LineRange, end: nat)
    requires '\r' !in text && LinesExist(text, first, last)
    ensures LinesExist(ToCrlf(text), first, last)
    ensures range == LineEditRange(text, first, last).value && end == range.ContentEnd()
    ensures range.start <= end <= |text|
    ensures LineEditRange(ToCrlf(text), first, last).value == PlacedLines(text, range)
    ensures PlacedLines(text, range).ContentEnd() == Place(text, end)
  {
    range, end := ContentEndInText(text, first, last);
    LineRangeAlike(text, first, last);
  }

  lemma ContentEndInText(text: string, first: int, last: int) returns (range: LineRange, end: nat)
    requires '\r' !in text && LinesExist(text, first, last)
    ensures range == LineEditRange(text, first, last).value && end == range.ContentEnd()
    ensures range.start <= end <= |text| && PlacedLines(text, range).ContentEnd() == Place(text, end)
  {
    range := LineEditRange(text, first, last).value;
    LineRangeInText(text, first, last);
    EndingInFront(text, range.end, range.trailing);
    end := range.ContentEnd();
  }

  lemma ContentAlike(text: string, first: int, last: int)
    requires '\r' !in text && LinesExist(text, first, last)
    ensures LinesExist(ToCrlf(text), first, last)
    ensures ToLf(Content(ToCrlf(text), LineEditRange(ToCrlf(text), first, last).value))
         == ToLf(Content(text, LineEditRange(text, first, last).value))
  {
    var range, end := ContentEndAlike(text, first, last);
    SliceAlike(text, range.start, end);
    ContentOf(text, range);
    ContentOf(ToCrlf(text), PlacedLines(text, range));
    LfContent(text[range.start..end]);
  }

  lemma LfContent(content: string)
    requires '\r' !in content
    ensures ToLf(ToCrlf(content)) == ToLf(content)
  {
    ToLfOfToCrlf(content);
    LfTextIsItsOwnLf(content);
  }

  /** The expected text is not the one compared with it. */
  predicate IsMismatch(text: string, e: Edit)
    requires !e.IsTextEdit() && LinesExist(text, e.startLine, e.endLine)
  {
    e.expectedText.Some?
    && ToLf(Content(text, LineEditRange(text, e.startLine, e.endLine).value)) != ToLf(e.expectedText.value)
  }

  lemma ReplacedLinesAre(text: string, e: Edit, i: nat, range: LineRange, end: nat, adapted: string)
    requires e.ReplaceLines? && LineEditRange(text, e.startLine, e.endLine) == Some(range)
    requires end == range.ContentEnd() && adapted == Adapt(e.newText, text, range.start, range.end)
    ensures ApplyLineEdit(text, e, i) ==
              if IsMismatch(text, e) then Failed(ExpectedTextMismatch(i))
              else Edited(Front(text, range.start) + adapted + Back(text, end))
  {
  }

  lemma ReplaceLinesActsAlike(text: string, e: Edit, i: nat)
    requires e.ReplaceLines? && '\r' !in text && '\n' in text && LinesExist(text, e.startLine, e.endLine)
    ensures ApplyLineEdit(ToCrlf(text), e, i) == WindowsResult(ApplyLineEdit(text, e, i))
  {
    var range, end := ContentEndAlike(text, e.startLine, e.endLine);
    var place, adapted := PlacedLines(text, range), Adapt(e.newText, text, range.start, range.end);
    ContentAlike(text, e.startLine, e.endLine);
    AdaptAlike(e.newText, text, range.start, range.end, place.start, place.end);
    PutAlike(text, range.start, adapted, end);
    ReplacedLinesAre(text, e, i, range, end, adapted);
    ReplacedLinesAre(ToCrlf(text), e, i, place, Place(text, end), ToCrlf(adapted));
  }

  /** Where the deleted part begins: at the newline before it if none is behind it. */
  function DeletedFrom(range: LineRange): int {
    if range.trailing != "" || range.preceding == "" then range.start else range.start - |range.preceding|
  }

  lemma DeletedLinesAre(text: string, e: Edit, i: nat, range: LineRange, from: nat)
    requires e.DeleteLines? && LineEditRange(text, e.startLine, e.endLine) == Some(range)
    requires from == DeletedFrom(range)
    ensures ApplyLineEdit(text, e, i) ==
              if IsMismatch(text, e) then Failed(ExpectedTextMismatch(i))
              else Edited(Front(text, from) + "" + Back(text, range.end))
  {
    assert Front(text, from) + "" == Front(text, from);
  }

  lemma DeletedFromAlike(text: string, first: int, last: int, range: LineRange) returns (from: nat)
    requires '\r' !in text && LinesExist(text, first, last) && LineEditRange(text, first, last) == Some(range)
    ensures from == DeletedFrom(range) <= range.end <= |text|
    ensures DeletedFrom(PlacedLines(text, range)) == Place(text, from)
  {
    LineRangeInText(text, first, last);
    EndingInFront(text, range.start, range.preceding);
    from := DeletedFrom(range);
  }

  lemma DeleteLinesActsAlike(text: string, e: Edit, i: nat)
    requires e.DeleteLines? && '\r' !in text && LinesExist(text, e.startLine, e.endLine)
    ensures ApplyLineEdit(ToCrlf(text), e, i) == WindowsResult(ApplyLineEdit(text, e, i))
  {
    var range := LineEditRange(text, e.startLine, e.endLine).value;
    var from := DeletedFromAlike(text, e.startLine, e.endLine, range);
    LineRangeAlike(text, e.startLine, e.endLine);
    ContentAlike(text, e.startLine, e.endLine);
    PutAlike(text, from, "", range.end);
    DeletedLinesAre(text, e, i, range, from);
    DeletedLinesAre(ToCrlf(text), e, i, PlacedLines(text, range), Place(text, from));
  }

  // ----- one edit -----

  predicate IsPlainAny(e: Edit) {
    e.IsTextEdit() ==> IsPlainEdit(e)
  }

  /** One edit of any type. */
  lemma EditActsAlike(text: string, e: Edit, i: nat)
    requires IsPlainAny(e) && '\r' !in text && '\n' in text
    ensures ApplyEdit(Matching(), ToCrlf(text), e, i) == WindowsResult(ApplyEdit(Matching(), text, e, i))
  {
    if e.IsTextEdit() {
      TextEditActsAlike(text, e, i);
    } else {
      LineRangeAlike(text, e.startLine, e.endLine);
      if LinesExist(text, e.startLine, e.endLine) {
        if e.ReplaceLines? {
          ReplaceLinesActsAlike(text, e, i);
        } else {
          DeleteLinesActsAlike(text, e, i);
        }
      }
    }
  }

  // ----- edits in turn -----

  /** Every edit finds a text without carriage returns that has a newline to go by. */
  predicate StaysPlain(text: string, edits: seq<Edit>, i: nat)
    requires i <= |edits|
    decreases |edits| - i
  {
    i == |edits| ||
    (&& '\r' !in text && '\n' in text && IsPlainAny(edits[i])
     && (ApplyEdit(Matching(), text, edits[i], i).Edited? ==>
           StaysPlain(ApplyEdit(Matching(), text, edits[i], i).text, edits, i + 1)))
  }

  lemma {:induction false} EditsInTurnActAlike(text: string, edits: seq<Edit>, i: nat)
    requires i <= |edits| && StaysPlain(text, edits, i)
    ensures ApplyInTurn(Matching(), ToCrlf(text), edits, i) == WindowsResult(ApplyInTurn(Matching(), text, edits, i))
    decreases |edits| - i
  {
    if i < |edits| {
      EditActsAlike(text, edits[i], i);
      var result := ApplyEdit(Matching(), text, edits[i], i);
      if result.Edited? {
        EditsInTurnActAlike(result.text, edits, i + 1);
      }
    }
  }

  // ----- the snapshot -----

  function PlacedOptional(text: string, ops: Option<seq<Op>>): Option<seq<Op>> {
    if ops.None? then None else Some(PlacedOps(text, ops.value))
  }

  lemma SnapshotOpsAlike(text: string, e: Edit)
    requires IsPlainAny(e) && '\r' !in text && '\n' in text
    ensures SnapshotOps(Matching(), ToCrlf(text), e) == PlacedOptional(text, SnapshotOps(Matching(), text, e))
  {
    if e.IsTextEdit() && Target(e) != "" {
      ResolveAlike(text, e, 0);
      var resolution := Resolve(Matching(), text, e, 0);
      if resolution.Resolved? {
        MatchingIsSound();
        ResolvedRangesFit(Matching(), text, e, 0);
        RangesFitInside(resolution.ranges, |resolution.ranges|, |text|);
        OpsAlike(e, text, resolution.ranges);
      }
    }
  }

  lemma PlacedOfBoth(text: string, front: seq<Op>, back: seq<Op>)
    ensures PlacedOps(text, front + back) == PlacedOps(text, front) + PlacedOps(text, back)
  {
  }

  lemma {:induction false} GatheredPlaced(text: string, ops: Edit -> Option<seq<Op>>,
                                          others: Edit -> Option<seq<Op>>, edits: seq<Edit>, n: nat)
    requires n <= |edits| && forall e :: e in edits ==> others(e) == PlacedOptional(text, ops(e))
    ensures Gathered(others, edits, n) == PlacedOptional(text, Gathered(ops, edits, n))
  {
    assert PlacedOps(text, []) == [];
    if 0 < n {
      GatheredPlaced(text, ops, others, edits, n - 1);
      assert edits[n - 1] in edits;
      var front, last := Gathered(ops, edits, n - 1), ops(edits[n - 1]);
      if front.Some? && last.Some? {
        PlacedOfBoth(text, front.value, last.value);
      }
    }
  }

  lemma GatheredAlike(text: string, edits: seq<Edit>)
    requires '\r' !in text && '\n' in text && forall e :: e in edits ==> IsPlainAny(e)
    ensures AllSnapshotOps(Matching(), ToCrlf(text), edits)
         == PlacedOptional(text, AllSnapshotOps(Matching(), text, edits))
  {
    var ops, others := Finder(Matching(), text), Finder(Matching(), ToCrlf(text));
    forall e | e in edits
      ensures others(e) == PlacedOptional(text, ops(e))
    {
      SnapshotOpsAlike(text, e);
    }
    GatheredPlaced(text, ops, others, edits, |edits|);
  }

  predicate AreInside(text: string, ops: seq<Op>) {
    forall op :: op in ops ==> op.start <= |text| && op.end <= |text|
  }

  lemma BeforeAlike(text: string, i: nat, j: nat)
    requires i <= |text| && j <= |text|
    ensures Place(text, i) < Place(text, j) <==> i < j
  {
    if i < j {
      PlacesInOrder(text, i, j);
    } else {
      PlacesInOrder(text, j, i);
    }
  }

  lemma OpsInOrderAlike(text: string, a: Op, b: Op)
    requires a.start <= |text| && a.end <= |text| && b.start <= |text| && b.end <= |text|
    ensures Before(PlacedOp(text, a), PlacedOp(text, b)) <==> Before(a, b)
  {
    BeforeAlike(text, a.start, b.start);
    BeforeAlike(text, b.start, a.start);
    BeforeAlike(text, b.end, a.end);
  }

  lemma {:induction false} InsertAlike(text: string, op: Op, sorted: seq<Op>)
    requires op.start <= |text| && op.end <= |text| && AreInside(text, sorted)
    ensures Insert(PlacedOp(text, op), PlacedOps(text, sorted)) == PlacedOps(text, Insert(op, sorted))
    ensures AreInside(text, Insert(op, sorted))
    decreases |sorted|
  {
    if sorted != [] {
      var front, last := sorted[..|sorted| - 1], sorted[|sorted| - 1];
      assert sorted == front + [last] && last in sorted;
      OpsInOrderAlike(text, last, op);
      PlacedOfBoth(text, front, [last]);
      assert PlacedOps(text, sorted)[..|sorted| - 1] == PlacedOps(text, front);
      if Before(last, op) {
        PlacedOfBoth(text, sorted, [op]);
      } else {
        InsertAlike(text, op, front);
        PlacedOfBoth(text, Insert(op, front), [last]);
      }
    }
  }

  lemma SortOfOneMore(ops: seq<Op>, op: Op)
    ensures Sort(ops + [op]) == Insert(op, Sort(ops))
  {
    assert (ops + [op])[..|ops|] == ops;
  }

  lemma FrontIsInside(text: string, ops: seq<Op>) returns (front: seq<Op>, last: Op)
    requires ops != [] && AreInside(text, ops)
    ensures ops == front + [last] && |front| < |ops|
    ensures AreInside(text, front) && last.start <= |text| && last.end <= |text|
  {
    front, last := ops[..|ops| - 1], ops[|ops| - 1];
    assert last in ops;
  }

  lemma {:induction false} SortAlike(text: string, ops: seq<Op>)
    requires AreInside(text, ops)
    ensures Sort(PlacedOps(text, ops)) == PlacedOps(text, Sort(ops)) && AreInside(text, Sort(ops))
    decreases |ops|
  {
    if ops != [] {
      var front, last := FrontIsInside(text, ops);
      SortAlike(text, front);
      InsertAlike(text, last, Sort(front));
      PlacedOfBoth(text, front, [last]);
      SortOfOneMore(front, last);
      SortOfOneMore(PlacedOps(text, front), PlacedOp(text, last));
      assert PlacedOps(text, [last]) == [PlacedOp(text, last)];
    }
  }

  lemma OverlapsAlike(text: string, ops: seq<Op>)
    requires AreInside(text, ops)
    ensures Overlaps(PlacedOps(text, ops)) <==> Overlaps(ops)
  {
    forall i | 0 < i < |ops|
      ensures PlacedOps(text, ops)[i].start < PlacedOps(text, ops)[i - 1].end <==> ops[i].start < ops[i - 1].end
    {
      assert ops[i] in ops && ops[i - 1] in ops;
      BeforeAlike(text, ops[i].start, ops[i - 1].end);
    }
  }

  lemma SnapshotActsAlike(text: string, edits: seq<Edit>)
    requires '\r' !in text && '\n' in text && forall e :: e in edits ==> IsPlainAny(e)
    ensures ApplySnapshot(Matching(), ToCrlf(text), edits)
         == match ApplySnapshot(Matching(), text, edits) case None => None case Some(result) => Some(ToCrlf(result))
  {
    MatchingIsSound();
    GatheredAlike(text, edits);
    var found := AllSnapshotOps(Matching(), text, edits);
    if found.Some? {
      SnapshotOpsAreProper(Matching(), text, edits);
      SortAlike(text, found.value);
      OverlapsAlike(text, Sort(found.value));
      if ApplySnapshot(Matching(), text, edits).Some? {
        WovenSnapshotAlike(text, edits, Sort(found.value));
      }
    }
  }

  lemma WovenSnapshotAlike(text: string, edits: seq<Edit>, ops: seq<Op>)
    requires ApplySnapshot(Matching(), text, edits).Some? && ops == OrderedOps(Matching(), text, edits)
    requires ApplySnapshot(Matching(), ToCrlf(text), edits).Some?
    requires OrderedOps(Matching(), ToCrlf(text), edits) == PlacedOps(text, ops)
    ensures ApplySnapshot(Matching(), ToCrlf(text), edits).value
         == ToCrlf(ApplySnapshot(Matching(), text, edits).value)
  {
    MatchingIsSound();
    SnapshotWeaves(Matching(), text, edits);
    SnapshotWeaves(Matching(), ToCrlf(text), edits);
    WovenAlike(text, ops, |ops|, |text|);
    PlaceOfEnd(text);
  }

  // ----- the whole list -----

  /**
   A list of edits gives the same text but for the line endings, or fails with the same error, on a text with Windows
   line endings as on the text with plain newlines, by way of the same snapshot or in turn: as long as nothing that is
   looked for holds a carriage return and every edit finds a newline to go by.
   */
  lemma EditsActAlike(text: string, edits: seq<Edit>)
    requires '\r' !in text && '\n' in text && forall e :: e in edits ==> IsPlainAny(e)
    requires ApplySnapshot(Matching(), text, edits).None? ==> StaysPlain(text, edits, 0)
    ensures ApplyEdits(Matching(), ToCrlf(text), edits) == WindowsResult(ApplyEdits(Matching(), text, edits))
  {
    SnapshotActsAlike(text, edits);
    if ApplySnapshot(Matching(), text, edits).None? {
      EditsInTurnActAlike(text, edits, 0);
    }
  }
}
