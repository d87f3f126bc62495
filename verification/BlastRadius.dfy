/**
 The blast-radius guard: an edit is refused when it changes far more lines than its contract announces.
 The guard measures the changed span with two counters and, for wide spans, the bounded edit distance.
 The ratio test `changed / total >= 0.6` is stated over integers as `5 * changed >= 3 * total`.
 */
module BlastRadius {
  import opened Options
  import opened TextLines
  import opened EditContract
  import opened LineSpans
  import opened LineEditDistance

  const MAX_SAFE_INTEGER := 0x1F_FFFF_FFFF_FFFF

  datatype Measure = PrefixSuffix | BoundedLineDiff

  datatype Radius = Radius(
    beforeLineCount: nat,
    afterLineCount: nat,
    changedBeforeLines: nat,
    changedAfterLines: nat,
    changedLineCount: nat,
    expectedChangeLineBudget: int,
    allowedChangedLineCount: int,
    changeMeasure: Measure,
    spanChangedLineCount: nat,
    excessive: bool)

  function SemanticLines(value: string): seq<string> {
    Split(ToLf(value))
  }

  function TextLineUnits(value: string): nat {
    if value == "" then 0 else |SemanticLines(value)|
  }

  function Occurrences(expected: Option<int>): int {
    match expected
    case Some(n) => if -MAX_SAFE_INTEGER <= n <= MAX_SAFE_INTEGER then Max(1, n) else 1
    case None => 1
  }

  function RangeLines(startLine: int, endLine: int): int {
    if startLine <= endLine then endLine - startLine + 1 else 1
  }

  /** The line budget one edit announces. */
  function Announced(edit: Edit): int {
    match edit
    case Replace(oldText, newText, expected, _) =>
      Occurrences(expected) * (TextLineUnits(oldText) + TextLineUnits(newText))
    case InsertBefore(_, text, expected, _) => Occurrences(expected) * TextLineUnits(text)
    case InsertAfter(_, text, expected, _) => Occurrences(expected) * TextLineUnits(text)
    case ReplaceLines(startLine, endLine, newText, _) => RangeLines(startLine, endLine) + TextLineUnits(newText)
    case DeleteLines(startLine, endLine, _) => RangeLines(startLine, endLine)
  }

  function TotalAnnounced(edits: seq<Edit>): int {
    if edits == [] then 0 else TotalAnnounced(edits[..|edits| - 1]) + Announced(edits[|edits| - 1])
  }

  method ExpectedEditLineBudget(edits: seq<Edit>) returns (budget: int)
    ensures budget == Max(1, TotalAnnounced(edits))
  {
    budget := 0;
    for i := 0 to |edits|
      invariant budget == TotalAnnounced(edits[..i])
    {
      assert edits[..i + 1][..i] == edits[..i];
      budget := budget + Announced(edits[i]);
    }
    assert edits[..|edits|] == edits;
    budget := Max(1, budget);
  }

  // ----- what each type of edit announces -----

  /** The number of lines of a text, counted by its newlines; a text without characters has none. */
  function LineCount(text: string): nat {
    if text == "" then 0 else Newlines(text) + 1
  }

  function Newlines(text: string): nat {
    if text == "" then 0 else (if text[0] == '\n' then 1 else 0) + Newlines(text[1..])
  }

  lemma {:induction false} PiecesAreCounted(text: string)
    ensures |Split(text)| == Newlines(text) + 1
  {
    if text != "" {
      PiecesAreCounted(text[1..]);
    }
  }

  lemma {:induction false} ToLfKeepsNewlines(text: string)
    ensures Newlines(ToLf(text)) == Newlines(text)
  {
    if text != "" {
      if 2 <= |text| && text[0] == '\r' && text[1] == '\n' {
        ToLfKeepsNewlines(text[2..]);
        assert text[1..][1..] == text[2..];
        assert (['\n'] + ToLf(text[2..]))[1..] == ToLf(text[2..]);
      } else {
        ToLfKeepsNewlines(text[1..]);
        assert ([text[0]] + ToLf(text[1..]))[1..] == ToLf(text[1..]);
      }
    }
  }

  lemma UnitsAreLines(text: string)
    ensures TextLineUnits(text) == LineCount(text)
  {
    PiecesAreCounted(ToLf(text));
    ToLfKeepsNewlines(text);
  }

  /** How often an edit expects its target: a number it gives, but at least once; once if it gives none. */
  predicate IsExpected(expected: Option<int>, times: int) {
    match expected
    case None => times == 1
    case Some(n) =>
      if n < 1 || MAX_SAFE_INTEGER < n then times == 1 else times == n
  }

  /**
   The budget of a single edit by its type: a replacement announces its old and its new lines for every expected
   occurrence, an insertion the inserted lines, and a line edit the lines it names and the new ones.
   */
  lemma BudgetByType(e: Edit, times: int)
    requires e.IsTextEdit() ==> IsExpected(e.expectedOccurrences, times)
    ensures e.Replace? ==> TotalAnnounced([e]) == times * (LineCount(e.oldText) + LineCount(e.newText))
    ensures e.InsertBefore? || e.InsertAfter? ==> TotalAnnounced([e]) == times * LineCount(e.text)
    ensures e.ReplaceLines? && e.startLine <= e.endLine ==>
              TotalAnnounced([e]) == e.endLine - e.startLine + 1 + LineCount(e.newText)
    ensures e.DeleteLines? && e.startLine <= e.endLine ==> TotalAnnounced([e]) == e.endLine - e.startLine + 1
  {
    assert [e][..0] == [];
    if e.Replace? {
      UnitsAreLines(e.oldText);
      UnitsAreLines(e.newText);
    } else if e.InsertBefore? || e.InsertAfter? {
      UnitsAreLines(e.text);
    } else if e.ReplaceLines? {
      UnitsAreLines(e.newText);
    }
  }

  /** The budget of a list is the sum over its edits, however they are grouped. */
  lemma {:induction false} BudgetsAdd(a: seq<Edit>, b: seq<Edit>)
    ensures TotalAnnounced(a + b) == TotalAnnounced(a) + TotalAnnounced(b)
    decreases |b|
  {
    if b == [] {
      assert a + b == a;
    } else {
      assert (a + b)[..|a + b| - 1] == a + b[..|b| - 1];
      BudgetsAdd(a, b[..|b| - 1]);
    }
  }

  // ----- the span bounds the distance -----

  lemma {:induction false} CommonPrefixIsFree(before: seq<string>, after: seq<string>, n: nat)
    requires n <= |before| && n <= |after| && before[..n] == after[..n]
    ensures Steps(before, after, n, n) == 0
  {
    if 0 < n {
      assert before[n - 1] == before[..n][n - 1] && after[n - 1] == after[..n][n - 1];
      assert before[..n - 1] == before[..n][..n - 1] && after[..n - 1] == after[..n][..n - 1];
      CommonPrefixIsFree(before, after, n - 1);
    }
  }

  lemma {:induction false} StepsTriangle(before: seq<string>, after: seq<string>, x: nat, y: nat, dx: nat, dy: nat)
    ensures Steps(before, after, x + dx, y + dy) <= Steps(before, after, x, y) + dx + dy
    decreases dx + dy
  {
    if 0 < dx {
      StepsTriangle(before, after, x, y, dx - 1, dy);
      StepsNeighbours(before, after, x + dx - 1, y + dy);
    } else if 0 < dy {
      StepsTriangle(before, after, x, y, dx, dy - 1);
      StepsNeighbours(before, after, x + dx, y + dy - 1);
    }
  }

  lemma {:induction false} CommonSuffixIsFree(before: seq<string>, after: seq<string>, n: nat, suffix: nat)
    requires n <= suffix <= |before| && suffix <= |after|
    requires before[|before| - suffix..] == after[|after| - suffix..]
    ensures Steps(before, after, |before| - suffix + n, |after| - suffix + n)
         == Steps(before, after, |before| - suffix, |after| - suffix)
  {
    if 0 < n {
      CommonSuffixIsFree(before, after, n - 1, suffix);
      assert before[|before| - suffix + n - 1] == before[|before| - suffix..][n - 1];
      assert after[|after| - suffix + n - 1] == after[|after| - suffix..][n - 1];
    }
  }

  /** Deleting and inserting the whole span is one way to edit, so the distance never exceeds it. */
  lemma DistanceWithinSpan(before: seq<string>, after: seq<string>, prefix: nat, suffix: nat)
    requires IsSpan(before, after, prefix, suffix)
    ensures Distance(before, after) <= |before| + |after| - 2 * prefix - 2 * suffix
  {
    CommonPrefixIsFree(before, after, prefix);
    StepsTriangle(before, after, prefix, prefix, |before| - prefix - suffix, |after| - prefix - suffix);
    CommonSuffixIsFree(before, after, suffix, suffix);
  }

  /** The line edit distance when edits are given, the span is wide and the distance within the allowance. */
  method MeasureDistance(before: seq<string>, after: seq<string>, edited: bool, span: int, allowed: int)
    returns (bounded: Option<nat>)
    ensures bounded == if edited && span > allowed && Distance(before, after) <= allowed
                       then Some(Distance(before, after)) else None
  {
    if edited && span > allowed {
      DistanceIsMinimum(before, after);
      bounded := BoundedLineEditDistance(before, after, allowed);
    } else {
      bounded := None;
    }
  }

  /** The span between common prefix and suffix, which the distance never exceeds. */
  method ChangedSpan(before: seq<string>, after: seq<string>) returns (prefix: nat, suffix: nat)
    ensures IsSpan(before, after, prefix, suffix)
    ensures Distance(before, after) <= |before| + |after| - 2 * prefix - 2 * suffix
  {
    prefix := CommonPrefix(before, after);
    suffix := CommonSuffix(before, after, Min(|before|, |after|) - prefix);
    DistanceWithinSpan(before, after, prefix, suffix);
  }

  /**
   The verdict: an edit is excessive exactly when the larger text has at least 80 lines, the true line
   edit distance exceeds the allowance and the span covers at least 60% of all lines. A call without
   edits is never excessive, and the reported count always lies between the distance and the span.
   */
  method EditBlastRadius(original: string, updated: string, edits: seq<Edit>) returns (radius: Radius)
    ensures radius.beforeLineCount == |SemanticLines(original)| && radius.afterLineCount == |SemanticLines(updated)|
    ensures exists prefix: nat, suffix: nat ::
              && IsSpan(SemanticLines(original), SemanticLines(updated), prefix, suffix)
              && radius.changedBeforeLines == |SemanticLines(original)| - prefix - suffix
              && radius.changedAfterLines == |SemanticLines(updated)| - prefix - suffix
    ensures radius.spanChangedLineCount == radius.changedBeforeLines + radius.changedAfterLines
    ensures radius.allowedChangedLineCount == Max(40, 12 * radius.expectedChangeLineBudget)
    ensures radius.expectedChangeLineBudget ==
            Max(1, if edits == [] then radius.spanChangedLineCount else TotalAnnounced(edits))
    ensures radius.excessive <==>
            && edits != []
            && 80 <= Max(radius.beforeLineCount, radius.afterLineCount)
            && radius.allowedChangedLineCount < Distance(SemanticLines(original), SemanticLines(updated))
            && 3 * (radius.beforeLineCount + radius.afterLineCount) <= 5 * radius.spanChangedLineCount
    ensures Distance(SemanticLines(original), SemanticLines(updated)) <= radius.changedLineCount
    ensures radius.changedLineCount <= radius.spanChangedLineCount
    ensures radius.changeMeasure.BoundedLineDiff? ==>
            radius.changedLineCount == Distance(SemanticLines(original), SemanticLines(updated))
  {
    var before := SemanticLines(original);
    var after := SemanticLines(updated);
    var prefix, suffix := ChangedSpan(before, after);
    var changedBefore := |before| - prefix - suffix;
    var changedAfter := |after| - prefix - suffix;
    var span := changedBefore + changedAfter;
    var budget := Max(1, span);
    if edits != [] {
      budget := ExpectedEditLineBudget(edits);
    }
    var allowed := Max(40, budget * 12);
    var bounded := MeasureDistance(before, after, edits != [], span, allowed);
    var changed := if bounded.Some? then bounded.value else span;
    var total := Max(1, |before| + |after|);
    assert Distance(before, after) <= changed <= span && (changed == span || changed <= allowed);
    radius := Radius(
      |before|, |after|, changedBefore, changedAfter, changed, budget, allowed,
      if bounded.None? then PrefixSuffix else BoundedLineDiff, span,
      Max(|before|, |after|) >= 80 && changed > allowed && 5 * changed >= 3 * total);
  }
}
