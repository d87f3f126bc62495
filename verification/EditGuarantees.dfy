/** What a list of edits does whatever its order, outside its ranges, and to Windows line endings. */
module EditGuarantees {
  import opened Options
  import opened EditContract
  import opened NewlineStyle
  import opened LineRanges
  import opened TextSplices
  import opened TextEdits

  // ----- resolved ranges -----

  lemma ResolvedRangesFit(find: Matcher, text: string, e: Edit, i: nat)
    requires IsSound(find) && e.IsTextEdit() && Resolve(find, text, e, i).Resolved?
    ensures var ranges := Resolve(find, text, e, i).ranges; RangesFit(ranges, |ranges|, |text|)
  {
    match e.guards.lines
    case None => assert RangesFit(find(text, e, Range(0, |text|)), |find(text, e, Range(0, |text|))|, |text|);
    case Some((first, last)) =>
      OffsetsInText(text, first, last);
      var search := LineOffsets(text, first, last).value;
      assert RangesFit(find(text, e, search), |find(text, e, search)|, |text|);
  }

  lemma {:induction false} RangesAreProper(ranges: seq<Range>, k: nat, upTo: nat)
    requires k <= |ranges| && RangesFit(ranges, k, upTo)
    ensures forall j :: 0 <= j < k ==> ranges[j].start < ranges[j].end <= upTo
  {
    if 0 < k {
      RangesAreProper(ranges, k - 1, ranges[k - 1].start);
    }
  }

  lemma {:induction false} OpsFitLikeRanges(ops: seq<Op>, ranges: seq<Range>, k: nat, upTo: nat)
    requires |ops| == |ranges| && k <= |ranges| && RangesFit(ranges, k, upTo)
    requires forall j :: 0 <= j < |ops| ==> ops[j].start == ranges[j].start && ops[j].end == ranges[j].end
    ensures Fit(ops, k, upTo)
  {
    if 0 < k {
      OpsFitLikeRanges(ops, ranges, k - 1, ranges[k - 1].start);
    }
  }

  /** The effect of a text edit: its matches are replaced, all at once, and nothing else changes. */
  lemma TextEditWeaves(find: Matcher, text: string, e: Edit, i: nat)
    requires IsSound(find) && e.IsTextEdit() && ApplyTextEdit(find, text, e, i).Edited?
    ensures var ops := OpsOf(e, text, Resolve(find, text, e, i).ranges);
            Fit(ops, |ops|, |text|) && ApplyTextEdit(find, text, e, i).text == Woven(text, ops, |ops|, |text|)
  {
    var ranges := Resolve(find, text, e, i).ranges;
    ResolvedRangesFit(find, text, e, i);
    OpsFitLikeRanges(OpsOf(e, text, ranges), ranges, |ranges|, |text|);
    SplicingIsWeaving(text, OpsOf(e, text, ranges));
  }

  // ----- the snapshot -----

  lemma ResolvedOpsAreProper(find: Matcher, original: string, e: Edit)
    requires IsSound(find) && SnapshotOps(find, original, e).Some?
    ensures forall op :: op in SnapshotOps(find, original, e).value ==> IsProper(op, |original|)
  {
    var ranges := Resolve(find, original, e, 0).ranges;
    ResolvedRangesFit(find, original, e, 0);
    RangesAreProper(ranges, |ranges|, |original|);
  }

  predicate IsProper(op: Op, n: nat) {
    op.start < op.end <= n
  }

  /** What holds of the operations of every edit holds of all of them. */
  lemma {:induction false} GatheredAll(ops: Edit -> Option<seq<Op>>, edits: seq<Edit>, n: nat, p: Op -> bool)
    requires n <= |edits| && Gathered(ops, edits, n).Some?
    requires forall e :: e in edits && ops(e).Some? ==> forall op :: op in ops(e).value ==> p(op)
    ensures forall op :: op in Gathered(ops, edits, n).value ==> p(op)
  {
    if 0 < n {
      GatheredAll(ops, edits, n - 1, p);
      assert edits[n - 1] in edits;
    }
  }

  lemma SnapshotOpsAreProper(find: Matcher, original: string, edits: seq<Edit>)
    requires IsSound(find) && AllSnapshotOps(find, original, edits).Some?
    ensures forall op :: op in AllSnapshotOps(find, original, edits).value ==> IsProper(op, |original|)
  {
    forall e | e in edits && SnapshotOps(find, original, e).Some?
      ensures forall op :: op in SnapshotOps(find, original, e).value ==> IsProper(op, |original|)
    {
      ResolvedOpsAreProper(find, original, e);
    }
    GatheredAll(Finder(find, original), edits, |edits|, (op: Op) => IsProper(op, |original|));
  }

  /** The operations of an applied snapshot, in the order of their ranges. */
  function OrderedOps(find: Matcher, original: string, edits: seq<Edit>): seq<Op>
    requires ApplySnapshot(find, original, edits).Some?
  {
    Sort(AllSnapshotOps(find, original, edits).value)
  }

  lemma OrderedOpsFit(find: Matcher, original: string, edits: seq<Edit>)
    requires IsSound(find) && ApplySnapshot(find, original, edits).Some?
    ensures var ops := OrderedOps(find, original, edits);
            Fit(ops, |ops|, |original|) && forall op :: op in ops ==> op.start < op.end
  {
    var found := AllSnapshotOps(find, original, edits).value;
    SnapshotOpsAreProper(find, original, edits);
    SortKeepsMembers(found);
    ProperOpsFit(Sort(found), |original|);
  }

  lemma ProperOpsFit(ops: seq<Op>, n: nat)
    requires !Overlaps(ops) && forall op :: op in ops ==> IsProper(op, n)
    ensures Fit(ops, |ops|, n) && forall op :: op in ops ==> op.start < op.end
  {
    assert ops != [] ==> ops[|ops| - 1] in ops;
    NeighboursFit(ops, |ops|, n);
  }

  lemma SortKeepsMembers(ops: seq<Op>)
    ensures forall op :: op in Sort(ops) <==> op in ops
  {
    SortKeepsAll(ops);
    assert forall op :: op in Sort(ops) <==> op in multiset(Sort(ops));
    assert forall op :: op in ops <==> op in multiset(ops);
  }

  /** An applied snapshot replaces the ranges found in the original, all at once. */
  lemma SnapshotWeaves(find: Matcher, original: string, edits: seq<Edit>)
    requires IsSound(find) && ApplySnapshot(find, original, edits).Some?
    ensures var ops := OrderedOps(find, original, edits);
            Fit(ops, |ops|, |original|)
            && ApplySnapshot(find, original, edits) == Some(Woven(original, ops, |ops|, |original|))
  {
    OrderedOpsFit(find, original, edits);
    SplicingIsWeaving(original, OrderedOps(find, original, edits));
  }

  /** Every character outside the ranges is still there after the snapshot is applied. */
  lemma SnapshotKeepsOutside(find: Matcher, original: string, edits: seq<Edit>, p: nat)
    requires IsSound(find) && ApplySnapshot(find, original, edits).Some?
    requires p < |original| && Outside(OrderedOps(find, original, edits), p)
    ensures var ops, text := OrderedOps(find, original, edits), ApplySnapshot(find, original, edits).value;
            var q := p + Shift(ops, |ops|, p);
            0 <= q < |text| && text[q] == original[p]
  {
    var ops, text := AppliedSnapshot(find, original, edits);
    WovenKeepsOutside(original, ops, text, p);
  }

  lemma AppliedSnapshot(find: Matcher, original: string, edits: seq<Edit>) returns (ops: seq<Op>, text: string)
    requires IsSound(find) && ApplySnapshot(find, original, edits).Some?
    ensures ops == OrderedOps(find, original, edits) && ApplySnapshot(find, original, edits) == Some(text)
    ensures Fit(ops, |ops|, |original|) && text == Woven(original, ops, |ops|, |original|)
  {
    SnapshotWeaves(find, original, edits);
    ops, text := OrderedOps(find, original, edits), ApplySnapshot(find, original, edits).value;
  }

  lemma WovenKeepsOutside(original: string, ops: seq<Op>, text: string, p: nat)
    requires Fit(ops, |ops|, |original|) && text == Woven(original, ops, |ops|, |original|)
    requires p < |original| && Outside(ops, p)
    ensures var q := p + Shift(ops, |ops|, p); 0 <= q < |text| && text[q] == original[p]
  {
    OutsideIsPreserved(original, ops, |ops|, |original|, p);
  }

  // ----- the order of the edits -----

  lemma {:induction false} GatheredAlike(ops: Edit -> Option<seq<Op>>, a: seq<Edit>, b: seq<Edit>, n: nat)
    requires n <= |a| && n <= |b| && forall i :: 0 <= i < n ==> a[i] == b[i]
    ensures Gathered(ops, a, n) == Gathered(ops, b, n)
  {
    if 0 < n {
      GatheredAlike(ops, a, b, n - 1);
    }
  }

  lemma AddLast(front: seq<Op>, rest: seq<Op>, taken: seq<Op>, last: seq<Op>)
    requires multiset(front) == multiset(rest) + multiset(taken)
    ensures multiset(front + last) == multiset(rest + last) + multiset(taken)
  {
  }

  /** The operations of a list of edits are those of the list without one edit, and those of that edit. */
  lemma {:induction false} GatheredWithoutOne(ops: Edit -> Option<seq<Op>>, edits: seq<Edit>, others: seq<Edit>,
                                              n: nat, j: nat)
    requires j < n <= |edits| && Gathered(ops, edits, n).Some?
    requires |others| == |edits| - 1
    requires forall i :: 0 <= i < |others| ==> others[i] == edits[if i < j then i else i + 1]
    ensures Gathered(ops, others, n - 1).Some? && ops(edits[j]).Some?
    ensures multiset(Gathered(ops, edits, n).value)
         == multiset(Gathered(ops, others, n - 1).value) + multiset(ops(edits[j]).value)
    decreases n
  {
    if j == n - 1 {
      GatheredAlike(ops, edits, others, j);
    } else {
      GatheredWithoutOne(ops, edits, others, n - 1, j);
      assert others[n - 2] == edits[n - 1];
      AddLast(Gathered(ops, edits, n - 1).value, Gathered(ops, others, n - 2).value, ops(edits[j]).value,
              ops(edits[n - 1]).value);
    }
  }

  /** The list without its member at `j`. */
  function Without(edits: seq<Edit>, j: nat): (others: seq<Edit>)
    requires j < |edits|
    ensures |others| == |edits| - 1
    ensures forall i :: 0 <= i < |others| ==> others[i] == edits[if i < j then i else i + 1]
  {
    edits[..j] + edits[j + 1..]
  }

  lemma OneOut(edits: seq<Edit>, j: nat)
    requires j < |edits|
    ensures multiset(Without(edits, j)) == multiset(edits) - multiset{edits[j]}
  {
    assert edits == edits[..j] + [edits[j]] + edits[j + 1..];
  }

  lemma TakeOut(a: seq<Edit>, b: seq<Edit>) returns (j: nat)
    requires b != [] && multiset(a) == multiset(b)
    ensures |a| == |b| && j < |a| && a[j] == b[|b| - 1]
    ensures multiset(Without(a, j)) == multiset(Without(b, |b| - 1))
  {
    SameLength(a, b);
    j := PlaceOf(a, b, |b| - 1);
    OneOut(a, j);
    OneOut(b, |b| - 1);
  }

  lemma SameLength(a: seq<Edit>, b: seq<Edit>)
    requires multiset(a) == multiset(b)
    ensures |a| == |b|
  {
    assert |multiset(a)| == |a| && |multiset(b)| == |b|;
  }

  lemma PlaceOf(a: seq<Edit>, b: seq<Edit>, i: nat) returns (j: nat)
    requires multiset(a) == multiset(b) && i < |b|
    ensures j < |a| && a[j] == b[i]
  {
    assert b[i] in multiset(b);
    assert b[i] in a;
    j :| 0 <= j < |a| && a[j] == b[i];
  }

  /** Reordering the edits reorders the operations found for them. */
  lemma {:induction false} ReorderedOps(ops: Edit -> Option<seq<Op>>, a: seq<Edit>, b: seq<Edit>)
    requires multiset(a) == multiset(b) && Gathered(ops, a, |a|).Some?
    ensures Gathered(ops, b, |b|).Some?
    ensures multiset(Gathered(ops, b, |b|).value) == multiset(Gathered(ops, a, |a|).value)
    decreases |b|
  {
    if b == [] {
      assert |multiset(a)| == |a|;
      assert a == b;
    } else {
      var j := TakeOut(a, b);
      GatheredWithoutOne(ops, a, Without(a, j), |a|, j);
      ReorderedOps(ops, Without(a, j), Without(b, |b| - 1));
      LastPutBack(ops, b);
    }
  }

  lemma {:induction false} LastPutBack(ops: Edit -> Option<seq<Op>>, b: seq<Edit>)
    requires b != [] && Gathered(ops, Without(b, |b| - 1), |b| - 1).Some? && ops(b[|b| - 1]).Some?
    ensures Gathered(ops, b, |b|)
         == Some(Gathered(ops, Without(b, |b| - 1), |b| - 1).value + ops(b[|b| - 1]).value)
  {
    GatheredAlike(ops, b, Without(b, |b| - 1), |b| - 1);
  }

  /** When the snapshot is applied for one order of the edits, every order that tries it gets the same text. */
  lemma SnapshotIgnoresOrder(find: Matcher, original: string, a: seq<Edit>, b: seq<Edit>)
    requires IsSound(find) && multiset(a) == multiset(b)
    requires ApplySnapshot(find, original, a).Some? && IsCandidate(b)
    ensures ApplySnapshot(find, original, b) == ApplySnapshot(find, original, a)
  {
    var opsA := AllSnapshotOps(find, original, a).value;
    ReorderedOps(Finder(find, original), a, b);
    var opsB := AllSnapshotOps(find, original, b).value;
    OrderedOpsFit(find, original, a);
    SortKeepsAll(opsA);
    SortKeepsAll(opsB);
    SortIsSorted(opsB);
    OnlyOneOrder(Sort(opsA), Sort(opsB), |original|);
  }

  // ----- Windows line endings -----

  /** No range begins or ends between a carriage return and its newline. */
  predicate KeepPairs(text: string, ranges: seq<Range>) {
    forall k :: 0 <= k < |ranges| ==> !SplitsPair(text, ranges[k].start) && !SplitsPair(text, ranges[k].end)
  }

  predicate MatchesKeepPairs(find: Matcher, text: string, e: Edit) {
    e.IsTextEdit() && Resolve(find, text, e, 0).Resolved? ==> KeepPairs(text, Resolve(find, text, e, 0).ranges)
  }

  lemma ReplacementIsCrlf(e: Edit, text: string, range: Range)
    requires e.IsTextEdit() && IsCrlf(text) && '\n' in text
    requires range.start <= range.end <= |text| && !SplitsPair(text, range.start)
    ensures IsCrlf(Replacement(e, text, range))
  {
    var matched := Slice(text, range.start, range.end);
    PartIsCrlf(text, range.start, range.end);
    match e
    case Replace(_, newText, _, _) => AdaptedIsCrlf(newText, text, range.start, range.end);
    case InsertBefore(_, inserted, _, _) =>
      AdaptedIsCrlf(inserted, text, range.start, range.end);
      Behind(Adapt(inserted, text, range.start, range.end), matched);
    case InsertAfter(_, inserted, _, _) =>
      AdaptedIsCrlf(inserted, text, range.start, range.end);
      Behind(matched, Adapt(inserted, text, range.start, range.end));
  }

  predicate IsCrlfOp(text: string, op: Op) {
    IsCrlf(op.replacement) && !SplitsPair(text, op.end)
  }

  lemma ResolvedOpsAreCrlf(find: Matcher, text: string, e: Edit, i: nat)
    requires IsSound(find) && e.IsTextEdit() && IsCrlf(text) && '\n' in text && MatchesKeepPairs(find, text, e)
    requires Resolve(find, text, e, i).Resolved?
    ensures forall op :: op in OpsOf(e, text, Resolve(find, text, e, i).ranges) ==> IsCrlfOp(text, op)
  {
    var ranges := Resolve(find, text, e, i).ranges;
    assert ranges == Resolve(find, text, e, 0).ranges;
    ResolvedRangesFit(find, text, e, i);
    RangesAreProper(ranges, |ranges|, |text|);
    var ops := OpsOf(e, text, ranges);
    forall op | op in ops
      ensures IsCrlfOp(text, op)
    {
      var k :| 0 <= k < |ops| && ops[k] == op;
      ReplacementIsCrlf(e, text, ranges[k]);
    }
  }

  lemma OpsWeaveCrlf(text: string, ops: seq<Op>)
    requires IsCrlf(text) && Fit(ops, |ops|, |text|) && forall op :: op in ops ==> IsCrlfOp(text, op)
    ensures IsCrlf(Woven(text, ops, |ops|, |text|))
  {
    assert forall k :: 0 <= k < |ops| ==> ops[k] in ops;
    WovenIsCrlf(text, ops, |ops|, |text|);
  }

  lemma TextEditKeepsCrlf(find: Matcher, text: string, e: Edit, i: nat)
    requires IsSound(find) && e.IsTextEdit() && IsCrlf(text) && '\n' in text && MatchesKeepPairs(find, text, e)
    requires ApplyTextEdit(find, text, e, i).Edited?
    ensures IsCrlf(ApplyTextEdit(find, text, e, i).text)
  {
    ResolvedOpsAreCrlf(find, text, e, i);
    TextEditWeaves(find, text, e, i);
    OpsWeaveCrlf(text, OpsOf(e, text, Resolve(find, text, e, i).ranges));
  }

  /** In such a text no line edit cuts between a carriage return and its newline. */
  lemma LineRangeKeepsPairs(text: string, startLine: int, endLine: int)
    requires IsCrlf(text) && LinesExist(text, startLine, endLine)
    ensures var range := LineEditRange(text, startLine, endLine).value;
            && 0 <= range.ContentEnd() <= |text|
            && !SplitsPair(text, range.ContentEnd()) && !SplitsPair(text, range.end)
  {
    var range := LineEditRange(text, startLine, endLine).value;
    RangeNewlines(text, startLine, endLine);
    OffsetsCutLines(text, startLine, endLine);
  }

  lemma ReplacedIsCrlf(text: string, inserted: string, start: nat, contentEnd: nat)
    requires IsCrlf(text) && IsCrlf(inserted)
    requires start <= |text| && contentEnd <= |text| && !SplitsPair(text, contentEnd)
    ensures IsCrlf(Front(text, start) + inserted + Back(text, contentEnd))
  {
    PartIsCrlf(text, 0, start);
    PartIsCrlf(text, contentEnd, |text|);
    Behind(Front(text, start), inserted);
    Behind(Front(text, start) + inserted, Back(text, contentEnd));
  }

  lemma DeletedIsCrlf(text: string, from: nat, end: nat)
    requires IsCrlf(text) && from <= |text| && end <= |text| && !SplitsPair(text, end)
    ensures IsCrlf(Front(text, from) + Back(text, end))
  {
    PartIsCrlf(text, 0, from);
    PartIsCrlf(text, end, |text|);
    Behind(Front(text, from), Back(text, end));
  }

  lemma LineEditKeepsCrlf(text: string, e: Edit, i: nat)
    requires !e.IsTextEdit() && IsCrlf(text) && '\n' in text
    requires ApplyLineEdit(text, e, i).Edited?
    ensures IsCrlf(ApplyLineEdit(text, e, i).text)
  {
    var range := LineEditRange(text, e.startLine, e.endLine).value;
    LineRangeKeepsPairs(text, e.startLine, e.endLine);
    match e
    case ReplaceLines(_, _, newText, _) =>
      AdaptedIsCrlf(newText, text, range.start, range.end);
      ReplacedIsCrlf(text, Adapt(newText, text, range.start, range.end), range.start, range.ContentEnd());
    case DeleteLines(_, _, _) =>
      var from := if range.trailing != "" || range.preceding == "" then range.start
                  else Max(0, range.start - |range.preceding|);
      DeletedIsCrlf(text, from, range.end);
  }

  /** One edit of any type leaves every newline with its carriage return. */
  lemma EditKeepsCrlf(find: Matcher, text: string, e: Edit, i: nat)
    requires IsSound(find) && IsCrlf(text) && '\n' in text && MatchesKeepPairs(find, text, e)
    requires ApplyEdit(find, text, e, i).Edited?
    ensures IsCrlf(ApplyEdit(find, text, e, i).text)
  {
    if e.IsTextEdit() {
      TextEditKeepsCrlf(find, text, e, i);
    } else {
      LineEditKeepsCrlf(text, e, i);
    }
  }

  /** Before every edit that is applied there is a newline to go by, and its matches keep pairs. */
  predicate KeepsNewlines(find: Matcher, text: string, edits: seq<Edit>, i: nat)
    requires i <= |edits|
    decreases |edits| - i
  {
    i == |edits| ||
    (&& '\n' in text && MatchesKeepPairs(find, text, edits[i])
     && (ApplyEdit(find, text, edits[i], i).Edited? ==>
           KeepsNewlines(find, ApplyEdit(find, text, edits[i], i).text, edits, i + 1)))
  }

  lemma {:induction false} EditsInTurnKeepCrlf(find: Matcher, text: string, edits: seq<Edit>, i: nat)
    requires i <= |edits| && IsSound(find) && IsCrlf(text) && KeepsNewlines(find, text, edits, i)
    requires ApplyInTurn(find, text, edits, i).Edited?
    ensures IsCrlf(ApplyInTurn(find, text, edits, i).text)
    decreases |edits| - i
  {
    if i < |edits| {
      EditKeepsCrlf(find, text, edits[i], i);
      EditsInTurnKeepCrlf(find, ApplyEdit(find, text, edits[i], i).text, edits, i + 1);
    }
  }

  lemma SnapshotOpsAreCrlf(find: Matcher, original: string, edits: seq<Edit>)
    requires IsSound(find) && IsCrlf(original) && '\n' in original
    requires forall e :: e in edits ==> MatchesKeepPairs(find, original, e)
    requires AllSnapshotOps(find, original, edits).Some?
    ensures forall op :: op in AllSnapshotOps(find, original, edits).value ==> IsCrlfOp(original, op)
  {
    forall e | e in edits && SnapshotOps(find, original, e).Some?
      ensures forall op :: op in SnapshotOps(find, original, e).value ==> IsCrlfOp(original, op)
    {
      ResolvedOpsAreCrlf(find, original, e, 0);
    }
    GatheredAll(Finder(find, original), edits, |edits|, (op: Op) => IsCrlfOp(original, op));
  }

  /** An applied snapshot leaves every newline with its carriage return, however many edits there are. */
  lemma SnapshotKeepsCrlf(find: Matcher, original: string, edits: seq<Edit>)
    requires IsSound(find) && IsCrlf(original) && '\n' in original
    requires forall e :: e in edits ==> MatchesKeepPairs(find, original, e)
    requires ApplySnapshot(find, original, edits).Some?
    ensures IsCrlf(ApplySnapshot(find, original, edits).value)
  {
    SnapshotOpsAreCrlf(find, original, edits);
    SortKeepsMembers(AllSnapshotOps(find, original, edits).value);
    var ops, text := AppliedSnapshot(find, original, edits);
    OpsWeaveCrlf(original, ops);
  }
}
