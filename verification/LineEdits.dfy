/** What line edits do to a text with Unix line endings, seen as its list of lines. */
module LineEdits {
  import opened Options
  import opened TextLines
  import opened EditContract
  import opened NewlineStyle
  import opened LineRanges
  import opened TextSplices
  import opened TextEdits

  /**
   The range reaches the end of a text that ends in a newline, and takes that newline for the one behind
   its last line: the one case in which an empty last line is left.
   */
  predicate LeavesEmptyLine(lines: seq<string>, startLine: int, endLine: int) {
    lines != [] && endLine == |lines| && lines[|lines| - 1] == "" && startLine < endLine
  }

  function LinesWithout(lines: seq<string>, startLine: int, endLine: int): seq<string>
    requires 1 <= startLine <= endLine <= |lines|
  {
    if LeavesEmptyLine(lines, startLine, endLine) || (startLine == 1 && endLine == |lines|)
    then lines[..startLine - 1] + [""]
    else lines[..startLine - 1] + lines[endLine..]
  }

  function LinesWith(lines: seq<string>, startLine: int, endLine: int, inserted: seq<string>): seq<string>
    requires 1 <= startLine <= endLine <= |lines|
  {
    lines[..startLine - 1] + inserted + (if LeavesEmptyLine(lines, startLine, endLine) then [""] else lines[endLine..])
  }

  /** The lines an `expected_text` is compared with. */
  function LinesCompared(lines: seq<string>, startLine: int, endLine: int): seq<string>
    requires 1 <= startLine <= endLine <= |lines|
  {
    lines[startLine - 1..if LeavesEmptyLine(lines, startLine, endLine) then endLine - 1 else endLine]
  }

  // ----- the range in a text with Unix line endings -----

  lemma LfNewlineEnding(text: string, end: nat)
    requires IsLf(text) && end <= |text|
    ensures NewlineEndingAt(text, end) == "" || NewlineEndingAt(text, end) == "\n"
  {
  }

  lemma LfContentEnd(text: string, startLine: int, endLine: int)
    requires IsLf(text) && LinesExist(text, startLine, endLine)
    ensures var range := LineEditRange(text, startLine, endLine).value;
            && range.start <= range.ContentEnd()
            && range.ContentEnd() == range.end - (if EndsLine(text, startLine, endLine) then 1 else 0)
            && |range.preceding| == (if 1 < startLine then 1 else 0)
  {
    var range := LineEditRange(text, startLine, endLine).value;
    LfNewlineEnding(text, range.end);
    LfNewlineEnding(text, range.start);
    RangeNewlines(text, startLine, endLine);
  }

  lemma {:induction false} LeadIsJoin(lines: seq<string>, k: nat)
    requires 0 < k <= |lines|
    ensures Lead(lines, k) == Join(lines[..k], "\n") + "\n"
  {
    var front := lines[..k];
    JoinFromLine(front, k - 1);
    assert front[k - 1..] == [lines[k - 1]];
    assert Join([lines[k - 1]], "\n") == lines[k - 1];
    LeadOfSlice(lines, k, k - 1);
    assert Lead(lines, k) == Lead(lines, k - 1) + lines[k - 1] + "\n";
  }

  lemma LeadOfSlice(lines: seq<string>, k: nat, n: nat)
    requires n <= k <= |lines|
    ensures Lead(lines[..k], n) == Lead(lines, n)
  {
    assert lines[..k] + lines[k..] == lines;
    LeadOfFront(lines[..k], lines[k..], n);
  }

  lemma LeadBetween(lines: seq<string>, j: nat, k: nat)
    requires j < k <= |lines|
    ensures Lead(lines, k) == Lead(lines, j) + Join(lines[j..k], "\n") + "\n"
  {
    LeadIsJoin(lines, k);
    JoinFromLine(lines[..k], j);
    assert lines[..k][j..] == lines[j..k];
    LeadOfSlice(lines, k, j);
  }

  /** A text that ends in a newline is all lines but the empty last one, each with its newline. */
  lemma EndingText(text: string)
    requires Split(text)[|Split(text)| - 1] == ""
    ensures text == Lead(Split(text), |Split(text)| - 1)
  {
    var lines := Split(text);
    TextFromLine(text, |lines| - 1);
    assert lines[|lines| - 1..] == [lines[|lines| - 1]];
  }

  /** What stands behind the content of the range, its own newline included. */
  function Tail(lines: seq<string>, startLine: int, endLine: int): string
    requires 1 <= startLine <= endLine <= |lines|
  {
    if endLine < |lines| then "\n" + Join(lines[endLine..], "\n")
    else if LeavesEmptyLine(lines, startLine, endLine) then "\n" else ""
  }

  /** The parts of a text around the content of a range of lines, and behind the range. */
  predicate IsLayout(text: string, lines: seq<string>, startLine: int, endLine: int, start: nat, contentEnd: nat,
                     end: nat) {
    && 1 <= startLine <= endLine <= |lines| && start <= contentEnd <= end <= |text|
    && text[..start] == Lead(lines, startLine - 1)
    && text[..contentEnd] == Lead(lines, startLine - 1) + Join(LinesCompared(lines, startLine, endLine), "\n")
    && text[contentEnd..] == Tail(lines, startLine, endLine)
    && text[end..] == if endLine < |lines| then Join(lines[endLine..], "\n") else ""
  }

  lemma WithoutNewline(text: string, end: nat, front: string)
    requires end <= |text| && text[..end] == front + "\n"
    ensures 0 < end && text[..end - 1] == front && text[end - 1..] == "\n" + text[end..]
  {
    assert |front + "\n"| == end;
    assert text[..end][end - 1] == '\n';
    assert text[..end - 1] == text[..end][..end - 1];
  }

  lemma InnerLayout(text: string, startLine: int, endLine: int, start: nat, end: nat)
    requires 1 <= startLine <= endLine < |Split(text)| && start <= end <= |text|
    requires text[..start] == Lead(Split(text), startLine - 1) && text[..end] == Lead(Split(text), endLine)
    requires text[end..] == Join(Split(text)[endLine..], "\n")
    ensures start <= end - 1 && IsLayout(text, Split(text), startLine, endLine, start, end - 1, end)
  {
    var lines := Split(text);
    LeadBetween(lines, startLine - 1, endLine);
    WithoutNewline(text, end, Lead(lines, startLine - 1) + Join(lines[startLine - 1..endLine], "\n"));
  }

  lemma LastLayout(text: string, startLine: int, endLine: int, start: nat)
    requires 1 <= startLine <= endLine == |Split(text)| && start <= |text|
    requires text[..start] == Lead(Split(text), startLine - 1)
    ensures var end := if LeavesEmptyLine(Split(text), startLine, endLine) then |text| - 1 else |text|;
            start <= end && IsLayout(text, Split(text), startLine, endLine, start, end, |text|)
  {
    var lines := Split(text);
    assert text[..|text|] == text;
    if LeavesEmptyLine(lines, startLine, endLine) {
      EndingText(text);
      LeadBetween(lines, startLine - 1, endLine - 1);
      WithoutNewline(text, |text|, Lead(lines, startLine - 1) + Join(lines[startLine - 1..endLine - 1], "\n"));
    } else {
      TextFromLine(text, startLine - 1);
      assert lines[startLine - 1..] == lines[startLine - 1..endLine];
    }
  }

  lemma {:induction false} RangeLayout(text: string, startLine: int, endLine: int)
    requires IsLf(text) && LinesExist(text, startLine, endLine)
    ensures var range := LineEditRange(text, startLine, endLine).value;
            && range.start <= range.ContentEnd()
            && IsLayout(text, Split(text), startLine, endLine, range.start, range.ContentEnd(), range.end)
  {
    var start, end, contentEnd := RangeOffsets(text, startLine, endLine);
    if endLine < |Split(text)| {
      InnerLayout(text, startLine, endLine, start, end);
    } else {
      LastLayout(text, startLine, endLine, start);
    }
  }

  lemma RangeOffsets(text: string, startLine: int, endLine: int) returns (start: nat, end: nat, contentEnd: nat)
    requires IsLf(text) && LinesExist(text, startLine, endLine)
    ensures var range := LineEditRange(text, startLine, endLine).value;
            start == range.start && end == range.end && contentEnd == range.ContentEnd()
    ensures start <= contentEnd <= end <= |text| && text[..start] == Lead(Split(text), startLine - 1)
    ensures endLine < |Split(text)| ==>
              && contentEnd == end - 1 && text[..end] == Lead(Split(text), endLine)
              && text[end..] == Join(Split(text)[endLine..], "\n")
    ensures endLine == |Split(text)| ==>
              end == |text| && contentEnd == (if LeavesEmptyLine(Split(text), startLine, endLine) then end - 1 else end)
  {
    var range := LineEditRange(text, startLine, endLine).value;
    LfContentEnd(text, startLine, endLine);
    OffsetsCutLines(text, startLine, endLine);
    LastRangeEnds(text, startLine, endLine);
    start, end, contentEnd := range.start, range.end, range.ContentEnd();
  }

  lemma LastRangeEnds(text: string, startLine: int, endLine: int)
    requires LinesExist(text, startLine, endLine)
    ensures EndsLine(text, startLine, endLine) <==>
            endLine < |Split(text)| || LeavesEmptyLine(Split(text), startLine, endLine)
  {
  }

  lemma {:induction false} ContentIsLines(text: string, startLine: int, endLine: int)
    requires IsLf(text) && LinesExist(text, startLine, endLine)
    ensures Content(text, LineEditRange(text, startLine, endLine).value)
         == Join(LinesCompared(Split(text), startLine, endLine), "\n")
  {
    var range := LineEditRange(text, startLine, endLine).value;
    RangeLayout(text, startLine, endLine);
    LayoutContent(text, Split(text), startLine, endLine, range.start, range.ContentEnd(), range.end);
  }

  lemma LayoutContent(text: string, lines: seq<string>, startLine: int, endLine: int, start: nat, contentEnd: nat,
                      end: nat)
    requires IsLayout(text, lines, startLine, endLine, start, contentEnd, end)
    ensures text[start..contentEnd] == Join(LinesCompared(lines, startLine, endLine), "\n")
  {
    assert text[start..contentEnd] == text[..contentEnd][start..];
  }

  lemma {:induction false} ToLfOfLf(text: string)
    requires IsLf(text)
    ensures ToLf(text) == text
  {
    if text != "" {
      assert text[0] == '\r' && 1 < |text| ==> text[1] != '\n';
      var rest := text[1..];
      forall i | 0 < i < |rest| && rest[i] == '\n'
        ensures rest[i - 1] != '\r'
      {
        assert text[i + 1] == '\n';
      }
      ToLfOfLf(rest);
    }
  }

  lemma PartIsLf(text: string, start: nat, end: nat)
    requires IsLf(text) && start <= end <= |text|
    ensures IsLf(text[start..end])
  {
    var part := text[start..end];
    forall i | 0 < i < |part| && part[i] == '\n'
      ensures part[i - 1] != '\r'
    {
      assert text[start + i] == '\n';
    }
  }

  // ----- deleting -----

  lemma DeletedLines(text: string, lines: seq<string>, startLine: int, endLine: int, start: nat, contentEnd: nat,
                     end: nat)
    requires IsLayout(text, lines, startLine, endLine, start, contentEnd, end)
    requires forall line :: line in lines ==> '\n' !in line
    ensures endLine < |lines| || LeavesEmptyLine(lines, startLine, endLine) || startLine == 1 ==>
              Split(text[..start] + text[end..]) == LinesWithout(lines, startLine, endLine)
    ensures endLine == |lines| && !LeavesEmptyLine(lines, startLine, endLine) && 1 < startLine ==>
              0 < start && Split(text[..start - 1] + text[end..]) == LinesWithout(lines, startLine, endLine)
  {
    var lead := Lead(lines, startLine - 1);
    if endLine < |lines| {
      SplitBehindLead(lines, startLine - 1, Join(lines[endLine..], "\n"));
      SplitJoin(lines[endLine..]);
    } else if LeavesEmptyLine(lines, startLine, endLine) || startLine == 1 {
      SplitBehindLead(lines, startLine - 1, "");
    } else {
      LeadIsJoin(lines, startLine - 1);
      WithoutNewline(text, start, Join(lines[..startLine - 1], "\n"));
      assert text[..start - 1] + "" == text[..start - 1];
      SplitJoin(lines[..startLine - 1]);
      assert lines[..startLine - 1] + lines[endLine..] == lines[..startLine - 1];
    }
  }

  lemma {:induction false} DeletedText(text: string, startLine: int, endLine: int, deleted: string)
    requires IsLf(text) && LinesExist(text, startLine, endLine)
    requires var range := LineEditRange(text, startLine, endLine).value;
             var from := if range.trailing != "" || range.preceding == "" then range.start
                         else Max(0, range.start - |range.preceding|);
             deleted == Front(text, from) + Back(text, range.end)
    ensures Split(deleted) == LinesWithout(Split(text), startLine, endLine)
  {
    var range := LineEditRange(text, startLine, endLine).value;
    LfContentEnd(text, startLine, endLine);
    RangeNewlines(text, startLine, endLine);
    RangeLayout(text, startLine, endLine);
    DeletedLines(text, Split(text), startLine, endLine, range.start, range.ContentEnd(), range.end);
  }

  /** When the compared lines are as expected. */
  predicate AsExpected(text: string, startLine: int, endLine: int, expected: Option<string>)
    requires LinesExist(text, startLine, endLine)
  {
    expected.Some? ==> Join(LinesCompared(Split(text), startLine, endLine), "\n") == ToLf(expected.value)
  }

  lemma ComparesLines(text: string, startLine: int, endLine: int, expected: Option<string>)
    requires IsLf(text) && LinesExist(text, startLine, endLine)
    ensures var range := LineEditRange(text, startLine, endLine).value;
            AsExpected(text, startLine, endLine, expected) <==>
              !(expected.Some? && ToLf(Content(text, range)) != ToLf(expected.value))
  {
    var range := LineEditRange(text, startLine, endLine).value;
    ContentIsLines(text, startLine, endLine);
    RangeLayout(text, startLine, endLine);
    PartIsLf(text, range.start, range.ContentEnd());
    ToLfOfLf(Content(text, range));
  }

  /** `delete_lines` takes out exactly the named lines, or fails for one of two reasons. */
  lemma DeleteLinesTakesOutLines(text: string, startLine: int, endLine: int, expected: Option<string>, i: nat)
    requires IsLf(text)
    ensures var result := ApplyLineEdit(text, DeleteLines(startLine, endLine, expected), i);
            if !LinesExist(text, startLine, endLine) then result == Failed(LineRangeInvalid(i))
            else if !AsExpected(text, startLine, endLine, expected) then result == Failed(ExpectedTextMismatch(i))
            else result.Edited? && Split(result.text) == LinesWithout(Split(text), startLine, endLine)
  {
    if LinesExist(text, startLine, endLine) {
      ComparesLines(text, startLine, endLine, expected);
      var result := ApplyLineEdit(text, DeleteLines(startLine, endLine, expected), i);
      if result.Edited? {
        DeletedText(text, startLine, endLine, result.text);
      }
    }
  }

  // ----- replacing -----

  lemma ReplacedLines(lines: seq<string>, startLine: int, endLine: int, inserted: string)
    requires 1 <= startLine <= endLine <= |lines| && forall line :: line in lines ==> '\n' !in line
    ensures Split(Lead(lines, startLine - 1) + (inserted + Tail(lines, startLine, endLine)))
         == LinesWith(lines, startLine, endLine, Split(inserted))
  {
    SplitBehindLead(lines, startLine - 1, inserted + Tail(lines, startLine, endLine));
    SplitBeforeTail(lines, startLine, endLine, inserted);
  }

  lemma {:induction false} SplitBeforeTail(lines: seq<string>, startLine: int, endLine: int, inserted: string)
    requires 1 <= startLine <= endLine <= |lines| && forall line :: line in lines ==> '\n' !in line
    ensures Split(inserted + Tail(lines, startLine, endLine))
         == Split(inserted) + (if LeavesEmptyLine(lines, startLine, endLine) then [""] else lines[endLine..])
  {
    if endLine < |lines| {
      NewlineThen(inserted, Join(lines[endLine..], "\n"));
      SplitJoin(lines[endLine..]);
    } else if LeavesEmptyLine(lines, startLine, endLine) {
      NewlineThen(inserted, "");
      assert "\n" + "" == "\n";
    } else {
      assert inserted + "" == inserted;
      assert lines[endLine..] == [];
    }
  }

  lemma NewlineThen(inserted: string, rest: string)
    ensures Split(inserted + ("\n" + rest)) == Split(inserted) + Split(rest)
  {
    assert inserted + ("\n" + rest) == inserted + "\n" + rest;
    SplitAtNewline(inserted, rest);
  }

  lemma ReplacedText(text: string, startLine: int, endLine: int, inserted: string, replaced: string)
    requires IsLf(text) && LinesExist(text, startLine, endLine)
    requires var range := LineEditRange(text, startLine, endLine).value;
             replaced == Front(text, range.start) + inserted + Back(text, Max(0, range.ContentEnd()))
    ensures Split(replaced) == LinesWith(Split(text), startLine, endLine, Split(inserted))
  {
    var range := LineEditRange(text, startLine, endLine).value;
    RangeLayout(text, startLine, endLine);
    PutBetween(text, Split(text), startLine, endLine, range.start, range.ContentEnd(), range.end, inserted);
  }

  /** The text between a layout's lead and tail replaced. */
  lemma PutBetween(text: string, lines: seq<string>, startLine: int, endLine: int, start: nat, contentEnd: nat,
                   end: nat, inserted: string)
    requires IsLayout(text, lines, startLine, endLine, start, contentEnd, end)
    requires forall line :: line in lines ==> '\n' !in line
    ensures Split(Front(text, start) + inserted + Back(text, contentEnd))
         == LinesWith(lines, startLine, endLine, Split(inserted))
  {
    ReplacedLines(lines, startLine, endLine, inserted);
    TextsRegroup(Lead(lines, startLine - 1), inserted, Tail(lines, startLine, endLine));
  }

  lemma TextsRegroup(front: string, middle: string, back: string)
    ensures front + (middle + back) == front + middle + back
  {
  }

  /** `replace_lines` puts the lines of the new text in the place of the named ones, or fails as `delete_lines` does. */
  lemma ReplaceLinesPutsLines(text: string, startLine: int, endLine: int, newText: string, expected: Option<string>,
                              i: nat)
    requires IsLf(text)
    ensures var result := ApplyLineEdit(text, ReplaceLines(startLine, endLine, newText, expected), i);
            if !LinesExist(text, startLine, endLine) then result == Failed(LineRangeInvalid(i))
            else if !AsExpected(text, startLine, endLine, expected) then result == Failed(ExpectedTextMismatch(i))
            else result.Edited?
                 && Split(result.text) == LinesWith(Split(text), startLine, endLine, Split(ToLf(newText)))
  {
    if LinesExist(text, startLine, endLine) {
      ComparesLines(text, startLine, endLine, expected);
      var range := LineEditRange(text, startLine, endLine).value;
      LfTextPrefersLf(text, range.start, range.end);
      var result := ApplyLineEdit(text, ReplaceLines(startLine, endLine, newText, expected), i);
      if result.Edited? {
        ReplacedText(text, startLine, endLine, ToLf(newText), result.text);
      }
    }
  }
}
