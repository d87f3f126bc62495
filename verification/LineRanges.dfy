/** From line numbers to offsets: the start of every line, and the range that a line edit rewrites. */
module LineRanges {
  import opened Options
  import opened TextLines

  /** The first `k` lines, each with its newline. */
  function Lead(lines: seq<string>, k: nat): string
    requires k <= |lines|
  {
    if k == 0 then "" else Lead(lines, k - 1) + lines[k - 1] + "\n"
  }

  /** The offset at which every line of a text starts. */
  function Starts(text: string): (starts: seq<nat>)
    ensures |starts| == |Split(text)|
  {
    seq(|Split(text)|, k requires 0 <= k < |Split(text)| => |Lead(Split(text), k)|)
  }

  // ----- lines and the text they make up -----

  lemma Regroup(a: string, b: string, c: string, d: string)
    ensures a + (b + c + d) == a + b + c + d
  {
  }

  lemma {:induction false} LeadOfFront(front: seq<string>, back: seq<string>, k: nat)
    requires k <= |front|
    ensures Lead(front + back, k) == Lead(front, k)
  {
    if 0 < k {
      LeadOfFront(front, back, k - 1);
    }
  }

  lemma {:induction false} JoinFromLine(lines: seq<string>, k: nat)
    requires k < |lines|
    ensures Join(lines, "\n") == Lead(lines, k) + Join(lines[k..], "\n")
  {
    if k == 0 {
      assert lines[0..] == lines;
    } else {
      JoinFromLine(lines, k - 1);
      assert lines[k - 1..][1..] == lines[k..];
      assert Join(lines[k - 1..], "\n") == lines[k - 1] + "\n" + Join(lines[k..], "\n");
      Regroup(Lead(lines, k - 1), lines[k - 1], "\n", Join(lines[k..], "\n"));
    }
  }

  /** Whatever follows the first `k` lines, it does not change them. */
  lemma {:induction false} SplitBehindLead(lines: seq<string>, k: nat, rest: string)
    requires k <= |lines| && forall line :: line in lines ==> '\n' !in line
    ensures Split(Lead(lines, k) + rest) == lines[..k] + Split(rest)
  {
    if k == 0 {
      assert "" + rest == rest;
    } else {
      var line := lines[k - 1];
      Regroup(Lead(lines, k - 1), line, "\n", rest);
      SplitBehindLead(lines, k - 1, line + "\n" + rest);
      assert line in lines;
      SplitFirstLine(line, rest);
      InFront(lines, k, Split(rest));
    }
  }

  lemma SplitFirstLine(line: string, rest: string)
    requires '\n' !in line
    ensures Split(line + "\n" + rest) == [line] + Split(rest)
  {
    SplitWithoutNewline(line);
    SplitAtNewline(line, rest);
  }

  lemma InFront(lines: seq<string>, k: nat, rest: seq<string>)
    requires 0 < k <= |lines|
    ensures lines[..k - 1] + ([lines[k - 1]] + rest) == lines[..k] + rest
  {
  }

  /** A text is its first `k` lines followed by the other lines. */
  lemma TextFromLine(text: string, k: nat)
    requires k < |Split(text)|
    ensures text == Lead(Split(text), k) + Join(Split(text)[k..], "\n")
  {
    JoinSplit(text);
    JoinFromLine(Split(text), k);
  }

  lemma {:induction false} LeadEndsInNewline(lines: seq<string>, k: nat)
    requires 0 < k <= |lines|
    ensures var lead := Lead(lines, k); lead != "" && lead[|lead| - 1] == '\n'
  {
  }

  lemma {:induction false} LeadGrows(lines: seq<string>, j: nat, k: nat)
    requires j <= k <= |lines|
    ensures |Lead(lines, j)| + (k - j) <= |Lead(lines, k)|
  {
    if j < k {
      LeadGrows(lines, j, k - 1);
    }
  }

  // ----- scanning for line starts -----

  lemma NewlineStartsLine(text: string)
    ensures Starts(text + "\n") == Starts(text) + [|text| + 1]
  {
    SplitAtNewline(text, "");
    assert text + "\n" + "" == text + "\n";
    var lines := Split(text);
    var n := |lines|;
    TextFromLine(text, n - 1);
    assert lines[n - 1..] == [lines[n - 1]];
    forall k | 0 <= k <= n
      ensures Starts(text + "\n")[k] == (Starts(text) + [|text| + 1])[k]
    {
      LeadOfFront(lines, [""], k);
      assert k == n ==> |Lead(lines, n)| == |text| + 1;
    }
  }

  lemma {:induction false} SplitExtended(text: string, c: char)
    requires c != '\n'
    ensures var lines := Split(text); var n := |lines|;
            Split(text + [c]) == lines[..n - 1] + [lines[n - 1] + [c]]
  {
    var lines := Split(text);
    var n := |lines|;
    TextFromLine(text, n - 1);
    assert lines[n - 1..] == [lines[n - 1]];
    assert text + [c] == Lead(lines, n - 1) + (lines[n - 1] + [c]);
    SplitBehindLead(lines, n - 1, lines[n - 1] + [c]);
    assert lines[n - 1] in lines;
    SplitWithoutNewline(lines[n - 1] + [c]);
  }

  lemma OtherCharacterStartsNoLine(text: string, c: char)
    requires c != '\n'
    ensures Starts(text + [c]) == Starts(text)
  {
    SplitExtended(text, c);
    var lines := Split(text);
    var n := |lines|;
    forall k | 0 <= k < n
      ensures Starts(text + [c])[k] == Starts(text)[k]
    {
      LeadOfFront(lines[..n - 1], [lines[n - 1] + [c]], k);
      LeadOfFront(lines[..n - 1], [lines[n - 1]], k);
      assert lines == lines[..n - 1] + [lines[n - 1]];
    }
  }

  method LineStarts(text: string) returns (starts: seq<nat>)
    ensures starts == Starts(text)
  {
    starts := [0];
    for i := 0 to |text|
      invariant starts == Starts(text[..i])
    {
      assert text[..i + 1] == text[..i] + [text[i]];
      if text[i] == '\n' {
        NewlineStartsLine(text[..i]);
        starts := starts + [i + 1];
      } else {
        OtherCharacterStartsNoLine(text[..i], text[i]);
      }
    }
    assert text[..|text|] == text;
  }

  // ----- the range of a line edit -----

  datatype Range = Range(start: nat, end: nat)

  predicate LinesExist(text: string, startLine: int, endLine: int) {
    1 <= startLine <= endLine <= |Split(text)|
  }

  /** `lineRangeOffsets`: nothing where the source throws `EDIT_LINE_RANGE_INVALID`. */
  function LineOffsets(text: string, startLine: int, endLine: int): (range: Option<Range>)
    ensures range.Some? <==> LinesExist(text, startLine, endLine)
  {
    if !LinesExist(text, startLine, endLine) then None
    else Some(Range(Starts(text)[startLine - 1], if endLine < |Split(text)| then Starts(text)[endLine] else |text|))
  }

  method LineRangeOffsets(text: string, startLine: int, endLine: int) returns (range: Option<Range>)
    ensures range == LineOffsets(text, startLine, endLine)
  {
    var starts := LineStarts(text);
    if startLine < 1 || endLine < startLine || |starts| < endLine {
      return None;
    }
    range := Some(Range(starts[startLine - 1], if endLine < |starts| then starts[endLine] else |text|));
  }

  /** `newlineEndingAt`. */
  function NewlineEndingAt(text: string, end: nat): string
    requires end <= |text|
  {
    if end == 0 || text[end - 1] != '\n' then ""
    else if 1 < end && text[end - 2] == '\r' then "\r\n" else "\n"
  }

  datatype LineRange = LineRange(start: nat, end: nat, trailing: string, preceding: string) {
    function ContentEnd(): int { end - |trailing| }
  }

  lemma OffsetsInText(text: string, startLine: int, endLine: int)
    requires LinesExist(text, startLine, endLine)
    ensures var range := LineOffsets(text, startLine, endLine).value; range.start <= range.end <= |text|
  {
    var lines := Split(text);
    TextFromLine(text, startLine - 1);
    if endLine < |lines| {
      TextFromLine(text, endLine);
      LeadGrows(lines, startLine - 1, endLine);
    }
  }

  /** `lineEditRange`: the lines with the newline behind them, and the newline before them. */
  function LineEditRange(text: string, startLine: int, endLine: int): (range: Option<LineRange>)
    ensures range.Some? <==> LinesExist(text, startLine, endLine)
    ensures range.Some? ==> range.value.start <= range.value.end <= |text|
  {
    match LineOffsets(text, startLine, endLine)
    case None => None
    case Some(range) =>
      OffsetsInText(text, startLine, endLine);
      Some(LineRange(range.start, range.end, if range.start < range.end then NewlineEndingAt(text, range.end) else "",
                     NewlineEndingAt(text, range.start)))
  }

  // ----- what the offsets mean in lines -----

  /** Some newline ends the range: always but at the end of a text without one, or of the empty last line alone. */
  predicate EndsLine(text: string, startLine: int, endLine: int)
    requires LinesExist(text, startLine, endLine)
  {
    var lines := Split(text);
    endLine < |lines| || (lines[|lines| - 1] == "" && startLine < endLine)
  }

  /** The text before the range is the lines before it, the text behind it the lines behind it. */
  lemma OffsetsCutLines(text: string, startLine: int, endLine: int)
    requires LinesExist(text, startLine, endLine)
    ensures var range, lines := LineEditRange(text, startLine, endLine).value, Split(text);
            && text[..range.start] == Lead(lines, startLine - 1)
            && text[..range.end] == (if endLine < |lines| then Lead(lines, endLine) else text)
            && text[range.end..] == (if endLine < |lines| then Join(lines[endLine..], "\n") else "")
  {
    var lines := Split(text);
    TextFromLine(text, startLine - 1);
    if endLine < |lines| {
      TextFromLine(text, endLine);
    }
  }

  lemma {:induction false} LastCharacterOfText(text: string)
    requires text != ""
    ensures var lines := Split(text); text[|text| - 1] == '\n' <==> lines[|lines| - 1] == ""
  {
    var lines := Split(text);
    var n := |lines|;
    TextFromLine(text, n - 1);
    assert lines[n - 1..] == [lines[n - 1]] && lines[n - 1] in lines;
    if lines[n - 1] == "" {
      LeadEndsInNewline(lines, n - 1);
    }
  }

  lemma RangeIsEmpty(text: string, startLine: int, endLine: int)
    requires LinesExist(text, startLine, endLine)
    ensures var range, lines := LineEditRange(text, startLine, endLine).value, Split(text);
            range.start == range.end <==> startLine == |lines| && lines[|lines| - 1] == ""
  {
    var lines := Split(text);
    var n := |lines|;
    OffsetsAreLeads(text, startLine, endLine);
    LastLineLength(text);
    if endLine < n {
      LeadGrows(lines, startLine - 1, endLine);
    } else {
      LeadGrows(lines, startLine - 1, n - 1);
    }
  }

  lemma OffsetsAreLeads(text: string, startLine: int, endLine: int)
    requires LinesExist(text, startLine, endLine)
    ensures var range, lines := LineEditRange(text, startLine, endLine).value, Split(text);
            && range.start == |Lead(lines, startLine - 1)|
            && range.end == if endLine < |lines| then |Lead(lines, endLine)| else |text|
  {
  }

  lemma LastLineLength(text: string)
    ensures var lines := Split(text); |text| == |Lead(lines, |lines| - 1)| + |lines[|lines| - 1]|
  {
    var lines := Split(text);
    TextFromLine(text, |lines| - 1);
    assert lines[|lines| - 1..] == [lines[|lines| - 1]];
  }

  lemma RangeHasPreceding(text: string, startLine: int, endLine: int)
    requires LinesExist(text, startLine, endLine)
    ensures LineEditRange(text, startLine, endLine).value.preceding != "" <==> 1 < startLine
  {
    var start := LineEditRange(text, startLine, endLine).value.start;
    var lead := Lead(Split(text), startLine - 1);
    OffsetsCutLines(text, startLine, endLine);
    assert text[..start] == lead;
    if 1 < startLine {
      LeadEndsInNewline(Split(text), startLine - 1);
      NewlineBehind(text, start, lead);
    }
  }

  lemma NewlineBehind(text: string, offset: nat, lead: string)
    requires offset <= |text| && text[..offset] == lead && lead != "" && lead[|lead| - 1] == '\n'
    ensures NewlineEndingAt(text, offset) != ""
  {
    assert text[offset - 1] == lead[|lead| - 1];
  }

  lemma PrefixEndsInNewline(text: string, endLine: nat, end: nat)
    requires 1 <= endLine <= |Split(text)| && 0 < end <= |text|
    requires text[..end] == if endLine < |Split(text)| then Lead(Split(text), endLine) else text
    ensures text[end - 1] == '\n' <==> endLine < |Split(text)| || Split(text)[|Split(text)| - 1] == ""
  {
    if endLine < |Split(text)| {
      var lead := Lead(Split(text), endLine);
      LeadEndsInNewline(Split(text), endLine);
      assert text[end - 1] == lead[|lead| - 1];
    } else {
      assert end == |text|;
      LastCharacterOfText(text);
    }
  }

  /** The range has a trailing newline exactly when `EndsLine`, and a preceding one exactly behind the first line. */
  lemma RangeNewlines(text: string, startLine: int, endLine: int)
    requires LinesExist(text, startLine, endLine)
    ensures var range := LineEditRange(text, startLine, endLine).value;
            && (range.trailing != "" <==> EndsLine(text, startLine, endLine))
            && (range.preceding != "" <==> 1 < startLine)
  {
    RangeIsEmpty(text, startLine, endLine);
    RangeHasPreceding(text, startLine, endLine);
    var range := LineEditRange(text, startLine, endLine).value;
    if range.start < range.end {
      OffsetsCutLines(text, startLine, endLine);
      PrefixEndsInNewline(text, endLine, range.end);
    }
  }
}
