/**
 The edit engine: resolving an edit to ranges, replacing them, editing lines, and applying a whole list
 either edit by edit or, when every range can be found in the original, against that snapshot at once.
 */
module TextEdits {
  import opened Options
  import opened TextLines
  import opened EditContract
  import opened NewlineStyle
  import opened LineRanges
  import opened TextSplices

  /** Errors carry the number of the edit. */
  datatype EditError =
    | LineRangeInvalid(edit: nat)
    | MatchCountMismatch(edit: nat, expected: int, actual: nat)
    | ExpectedTextMismatch(edit: nat)
    | TargetRequired(edit: nat)

  datatype EditResult = Edited(text: string) | Failed(error: EditError)

  datatype Resolution = Resolved(ranges: seq<Range>) | Unresolved(error: EditError)

  /** The matches of an edit's target in a search range of a text that pass its context guards. */
  type Matcher = (string, Edit, Range) -> seq<Range>

  /** Matches are ascending, disjoint, not empty and inside the text. */
  ghost predicate IsSound(find: Matcher) {
    forall text: string, e: Edit, search: Range {:trigger find(text, e, search)} ::
      search.start <= search.end <= |text| ==>
      RangesFit(find(text, e, search), |find(text, e, search)|, |text|)
  }

  predicate RangesFit(ranges: seq<Range>, k: nat, upTo: nat)
    requires k <= |ranges|
  {
    k == 0 || (ranges[k - 1].start < ranges[k - 1].end <= upTo && RangesFit(ranges, k - 1, ranges[k - 1].start))
  }

  // ----- text edits -----

  function Target(e: Edit): string {
    match e
    case Replace(oldText, _, _, _) => oldText
    case InsertBefore(anchor, _, _, _) => anchor
    case InsertAfter(anchor, _, _, _) => anchor
    case _ => ""
  }

  function Occurrences(e: Edit): int
    requires e.IsTextEdit()
  {
    match e.expectedOccurrences
    case None => 1
    case Some(n) => Max(1, n)
  }

  /** `resolveTextRanges`: the guarded matches, when there are as many as expected. */
  function Resolve(find: Matcher, text: string, e: Edit, i: nat): Resolution
    requires e.IsTextEdit()
  {
    var search := match e.guards.lines
      case None => Some(Range(0, |text|))
      case Some((first, last)) => LineOffsets(text, first, last);
    if search.None? then Unresolved(LineRangeInvalid(i))
    else
      var ranges := find(text, e, search.value);
      if |ranges| != Occurrences(e) then Unresolved(MatchCountMismatch(i, Occurrences(e), |ranges|))
      else Resolved(ranges)
  }

  /** What takes the place of one match. */
  function Replacement(e: Edit, text: string, range: Range): string
    requires e.IsTextEdit()
  {
    var matched := Slice(text, range.start, range.end);
    match e
    case Replace(_, newText, _, _) => Adapt(newText, text, range.start, range.end)
    case InsertBefore(_, inserted, _, _) => Adapt(inserted, text, range.start, range.end) + matched
    case InsertAfter(_, inserted, _, _) => matched + Adapt(inserted, text, range.start, range.end)
  }

  /** `text.slice(start, end)`. */
  function Slice(text: string, start: nat, end: nat): string {
    if Min(start, |text|) <= Min(end, |text|) then text[Min(start, |text|)..Min(end, |text|)] else ""
  }

  /** The ranges with what takes their place. */
  function WithReplacements(ranges: seq<Range>, replacement: Range -> string): (ops: seq<Op>)
    ensures |ops| == |ranges|
    ensures forall k :: 0 <= k < |ops| ==> ops[k] == Op(ranges[k].start, ranges[k].end, replacement(ranges[k]))
  {
    seq(|ranges|, k requires 0 <= k < |ranges| => Op(ranges[k].start, ranges[k].end, replacement(ranges[k])))
  }

  function Replacer(e: Edit, text: string): Range -> string
    requires e.IsTextEdit()
  {
    (range: Range) => Replacement(e, text, range)
  }

  function OpsOf(e: Edit, text: string, ranges: seq<Range>): seq<Op>
    requires e.IsTextEdit()
  {
    WithReplacements(ranges, Replacer(e, text))
  }

  /** `replaceTextRanges`: the last range first. */
  method ReplaceTextRanges(text: string, ranges: seq<Range>, replacement: Range -> string) returns (updated: string)
    ensures updated == RightToLeft(text, WithReplacements(ranges, replacement), |ranges|)
  {
    ghost var ops := WithReplacements(ranges, replacement);
    updated := text;
    for k := |ranges| downto 0
      invariant RightToLeft(text, ops, |ranges|) == RightToLeft(updated, ops, k)
    {
      updated := Front(updated, ranges[k].start) + replacement(ranges[k]) + Back(updated, ranges[k].end);
    }
  }

  function ApplyTextEdit(find: Matcher, text: string, e: Edit, i: nat): EditResult
    requires e.IsTextEdit()
  {
    if Target(e) == "" then Failed(TargetRequired(i))
    else
      match Resolve(find, text, e, i)
      case Unresolved(error) => Failed(error)
      case Resolved(ranges) => Edited(RightToLeft(text, OpsOf(e, text, ranges), |ranges|))
  }

  // ----- line edits -----

  /** The text of the lines without the newline that ends them. */
  function Content(text: string, range: LineRange): string {
    Slice(text, range.start, Max(0, range.ContentEnd()))
  }

  function ApplyLineEdit(text: string, e: Edit, i: nat): EditResult
    requires !e.IsTextEdit()
  {
    match LineEditRange(text, e.startLine, e.endLine)
    case None => Failed(LineRangeInvalid(i))
    case Some(range) =>
      if e.expectedText.Some? && ToLf(Content(text, range)) != ToLf(e.expectedText.value) then
        Failed(ExpectedTextMismatch(i))
      else
        match e
        case ReplaceLines(_, _, newText, _) =>
          Edited(Front(text, range.start) + Adapt(newText, text, range.start, range.end)
                 + Back(text, Max(0, range.ContentEnd())))
        case DeleteLines(_, _, _) =>
          var from := if range.trailing != "" || range.preceding == "" then range.start
                      else Max(0, range.start - |range.preceding|);
          Edited(Front(text, from) + Back(text, range.end))
  }

  function ApplyEdit(find: Matcher, text: string, e: Edit, i: nat): EditResult {
    if e.IsTextEdit() then ApplyTextEdit(find, text, e, i) else ApplyLineEdit(text, e, i)
  }

  /** The edits from number `i` on, each applied to what the one before it left. */
  function ApplyInTurn(find: Matcher, text: string, edits: seq<Edit>, i: nat): EditResult
    requires i <= |edits|
    decreases |edits| - i
  {
    if i == |edits| then Edited(text)
    else
      match ApplyEdit(find, text, edits[i], i)
      case Failed(error) => Failed(error)
      case Edited(next) => ApplyInTurn(find, next, edits, i + 1)
  }

  // ----- the snapshot -----

  predicate NamesLines(e: Edit) {
    !e.IsTextEdit() || e.guards.lines.Some?
  }

  /** The snapshot is tried when an edit behind the first one names lines. */
  predicate IsCandidate(edits: seq<Edit>) {
    2 <= |edits| && exists i :: 1 <= i < |edits| && NamesLines(edits[i])
  }

  /** The operations of one edit, found in the original; which error keeps it from being found plays no part. */
  function SnapshotOps(find: Matcher, original: string, e: Edit): Option<seq<Op>> {
    if !e.IsTextEdit() || Target(e) == "" || Resolve(find, original, e, 0).Unresolved? then None
    else Some(OpsOf(e, original, Resolve(find, original, e, 0).ranges))
  }

  function Finder(find: Matcher, original: string): Edit -> Option<seq<Op>> {
    (e: Edit) => SnapshotOps(find, original, e)
  }

  /** The operations of the first `n` edits, when all of them are found. */
  function Gathered(ops: Edit -> Option<seq<Op>>, edits: seq<Edit>, n: nat): Option<seq<Op>>
    requires n <= |edits|
  {
    if n == 0 then Some([])
    else
      var front, last := Gathered(ops, edits, n - 1), ops(edits[n - 1]);
      if front.None? || last.None? then None else Some(front.value + last.value)
  }

  function AllSnapshotOps(find: Matcher, original: string, edits: seq<Edit>): Option<seq<Op>> {
    Gathered(Finder(find, original), edits, |edits|)
  }

  /** `tryApplyOriginalSnapshotTextEdits`. */
  function ApplySnapshot(find: Matcher, original: string, edits: seq<Edit>): Option<string> {
    var ops := AllSnapshotOps(find, original, edits);
    if !IsCandidate(edits) || ops.None? || Overlaps(Sort(ops.value)) then None
    else Some(RightToLeft(original, Sort(ops.value), |ops.value|))
  }

  function ApplyEdits(find: Matcher, original: string, edits: seq<Edit>): EditResult {
    match ApplySnapshot(find, original, edits)
    case Some(text) => Edited(text)
    case None => ApplyInTurn(find, original, edits, 0)
  }

  // ----- the loops -----

  method TryApplySnapshot(find: Matcher, original: string, edits: seq<Edit>) returns (result: Option<string>)
    ensures result == ApplySnapshot(find, original, edits)
  {
    if !IsCandidate(edits) {
      return None;
    }
    var ops := GatherOps(find, original, edits);
    if ops.None? {
      return None;
    }
    var ordered := Sort(ops.value);
    var overlapping := HasOverlap(ordered);
    if overlapping {
      return None;
    }
    var text := SpliceAll(original, ordered);
    result := Some(text);
  }

  method GatherOps(find: Matcher, original: string, edits: seq<Edit>) returns (ops: Option<seq<Op>>)
    ensures ops == AllSnapshotOps(find, original, edits)
  {
    var gathered: seq<Op> := [];
    for n := 0 to |edits|
      invariant Gathered(Finder(find, original), edits, n) == Some(gathered)
    {
      var more := SnapshotOps(find, original, edits[n]);
      if more.None? {
        MissingOpsSpread(Finder(find, original), edits, n + 1, |edits|);
        return None;
      }
      gathered := gathered + more.value;
    }
    ops := Some(gathered);
  }

  method HasOverlap(ordered: seq<Op>) returns (overlapping: bool)
    ensures overlapping <==> Overlaps(ordered)
  {
    var i := 1;
    while i < |ordered|
      invariant forall j :: 0 < j < i && j < |ordered| ==> ordered[j - 1].end <= ordered[j].start
    {
      if ordered[i].start < ordered[i - 1].end {
        return true;
      }
      i := i + 1;
    }
    overlapping := false;
  }

  method SpliceAll(original: string, ops: seq<Op>) returns (text: string)
    ensures text == RightToLeft(original, ops, |ops|)
  {
    text := original;
    for k := |ops| downto 0
      invariant RightToLeft(original, ops, |ops|) == RightToLeft(text, ops, k)
    {
      text := Front(text, ops[k].start) + ops[k].replacement + Back(text, ops[k].end);
    }
  }

  lemma {:induction false} MissingOpsSpread(ops: Edit -> Option<seq<Op>>, edits: seq<Edit>, i: nat, n: nat)
    requires i <= n <= |edits| && Gathered(ops, edits, i).None?
    ensures Gathered(ops, edits, n).None?
  {
    if i < n {
      MissingOpsSpread(ops, edits, i, n - 1);
    }
  }

  /** `applyEdits`. */
  method ApplyAllEdits(find: Matcher, original: string, edits: seq<Edit>) returns (result: EditResult)
    ensures result == ApplyEdits(find, original, edits)
  {
    var snapshot := TryApplySnapshot(find, original, edits);
    if snapshot.Some? {
      return Edited(snapshot.value);
    }
    var text := original;
    for i := 0 to |edits|
      invariant ApplyInTurn(find, original, edits, 0) == ApplyInTurn(find, text, edits, i)
    {
      var step := ApplyOneEdit(find, text, edits[i], i);
      if step.Failed? {
        return step;
      }
      text := step.text;
    }
    result := Edited(text);
  }

  method ApplyOneEdit(find: Matcher, text: string, e: Edit, i: nat) returns (result: EditResult)
    ensures result == ApplyEdit(find, text, e, i)
  {
    if !e.IsTextEdit() {
      return ApplyLineEdit(text, e, i);
    }
    if Target(e) == "" {
      return Failed(TargetRequired(i));
    }
    match Resolve(find, text, e, i)
    case Unresolved(error) => return Failed(error);
    case Resolved(ranges) =>
      var updated := ReplaceTextRanges(text, ranges, Replacer(e, text));
      result := Edited(updated);
  }
}
