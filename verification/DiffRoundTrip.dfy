/** Printing the diff of two texts, parsing it and applying it to the first text gives the second. */
module DiffRoundTrip {
  import opened Options
  import opened TextLines
  import opened LineSpans
  import opened PatchApply
  import opened UnifiedDiff

  /** Nothing in a line that the printer or the parser would treat as a line ending. */
  predicate Plain(line: string) {
    '\n' !in line && '\r' !in line
  }

  predicate AllPlain(lines: seq<string>) {
    forall line :: line in lines ==> Plain(line)
  }

  /** A file name whose two header lines are taken as such and do not read as a created or deleted file. */
  predicate PlainName(file: string) {
    Plain(file) && !Contains("--- a/" + file, "/dev/null") && !Contains("+++ b/" + file, "/dev/null")
  }

  /** No printed line of the changed span looks like a header line of a patch. */
  ghost predicate Unmistakable(before: seq<string>, after: seq<string>, prefix: nat, suffix: nat)
    requires prefix + suffix <= |before| && prefix + suffix <= |after|
  {
    && (forall line :: line in before[prefix..|before| - suffix] ==> !StartsWith(line, "-- "))
    && (forall line :: line in after[prefix..|after| - suffix] ==> !StartsWith(line, "++ "))
  }

  function TheHunk(before: seq<string>, after: seq<string>, prefix: nat, suffix: nat): Hunk
    requires prefix + suffix <= |before| && prefix + suffix <= |after|
  {
    Hunk(Some(WindowOf(|before|, prefix, suffix).start + 1), Body(before, after, prefix, suffix))
  }

  // ----- splitting a text free of carriage returns -----

  lemma {:induction false} LfTextIsItsOwnLf(text: string)
    requires '\r' !in text
    ensures ToLf(text) == text
  {
    if text != "" {
      LfTextIsItsOwnLf(text[1..]);
    }
  }

  lemma {:induction false} PiecesArePlain(text: string)
    requires '\r' !in text
    ensures AllPlain(Split(text))
  {
    if text != "" {
      PiecesArePlain(text[1..]);
      var rest := Split(text[1..]);
      assert rest[0] in rest;
    }
  }

  lemma SplitLinesOfLf(text: string)
    requires '\r' !in text
    ensures SplitLines(text) == Split(text)
  {
    PiecesArePlain(text);
    var pieces := Split(text);
    forall i | 0 <= i < |pieces|
      ensures SplitLines(text)[i] == pieces[i]
    {
      assert pieces[i] in pieces;
    }
  }

  lemma DiffLinesArePlain(text: string)
    requires '\r' !in text
    ensures AllPlain(DiffLines(text))
  {
    if EndsWithNewline(text) {
      PiecesArePlain(text[..|text| - 1]);
    } else {
      PiecesArePlain(text);
    }
  }

  lemma NoCrlfInLf(text: string)
    requires '\r' !in text
    ensures !Contains(text, "\r\n")
  {
    forall i {:trigger text[i..]} | 0 <= i <= |text|
      ensures !("\r\n" <= text[i..])
    {
      assert forall j :: 0 <= j < |text| ==> text[j] != '\r';
      assert i < |text| ==> text[i..][0] != "\r\n"[0];
    }
  }

  /** The lines a patch is applied to are the lines a text is diffed by, but for the text of one empty line. */
  lemma PatchLinesAreDiffLines(text: string)
    requires '\r' !in text
    ensures SplitPatchLines(text) ==
              PatchLines(if text == "\n" then [] else DiffLines(text), "\n", EndsWithNewline(text))
  {
    NoCrlfInLf(text);
    if EndsWithNewline(text) {
      SplitLinesOfLf(text[..|text| - 1]);
      if |text| == 1 {
        assert text == "\n";
      }
    } else {
      SplitLinesOfLf(text);
    }
  }

  lemma JoinDiffLines(text: string)
    requires '\r' !in text
    ensures Join(DiffLines(text), "\n") == if EndsWithNewline(text) then text[..|text| - 1] else text
  {
    if EndsWithNewline(text) {
      JoinSplit(text[..|text| - 1]);
    } else if text != "" {
      JoinSplit(text);
    }
  }

  // ----- the two sides of the printed hunk -----

  lemma {:induction false} OldSideOfAppend(front: seq<HunkLine>, back: seq<HunkLine>)
    ensures OldSide(front + back) == OldSide(front) + OldSide(back)
  {
    if front == [] {
      assert front + back == back;
    } else {
      assert (front + back)[1..] == front[1..] + back;
      OldSideOfAppend(front[1..], back);
    }
  }

  lemma {:induction false} NewSideOfAppend(front: seq<HunkLine>, back: seq<HunkLine>)
    ensures NewSide(front + back) == NewSide(front) + NewSide(back)
  {
    if front == [] {
      assert front + back == back;
    } else {
      assert (front + back)[1..] == front[1..] + back;
      NewSideOfAppend(front[1..], back);
    }
  }

  lemma {:induction false} SidesOfKinded(kind: LineKind, lines: seq<string>)
    ensures OldSide(Kinded(kind, lines)) == if kind == Add then [] else lines
    ensures NewSide(Kinded(kind, lines)) == if kind == Remove then [] else lines
  {
    if lines != [] {
      assert Kinded(kind, lines)[1..] == Kinded(kind, lines[1..]);
      SidesOfKinded(kind, lines[1..]);
      assert lines == [lines[0]] + lines[1..];
    }
  }

  lemma SidesOfFourParts(a: seq<HunkLine>, b: seq<HunkLine>, c: seq<HunkLine>, d: seq<HunkLine>)
    ensures OldSide(a + b + c + d) == OldSide(a) + OldSide(b) + OldSide(c) + OldSide(d)
    ensures NewSide(a + b + c + d) == NewSide(a) + NewSide(b) + NewSide(c) + NewSide(d)
  {
    OldSideOfAppend(a + b + c, d);
    OldSideOfAppend(a + b, c);
    OldSideOfAppend(a, b);
    NewSideOfAppend(a + b + c, d);
    NewSideOfAppend(a + b, c);
    NewSideOfAppend(a, b);
  }

  lemma SidesOfFour(leading: seq<string>, removed: seq<string>, added: seq<string>, trailing: seq<string>)
    ensures var body := Kinded(Context, leading) + Kinded(Remove, removed)
                        + Kinded(Add, added) + Kinded(Context, trailing);
            OldSide(body) == leading + removed + trailing && NewSide(body) == leading + added + trailing
  {
    SidesOfFourParts(Kinded(Context, leading), Kinded(Remove, removed), Kinded(Add, added), Kinded(Context, trailing));
    SidesOfKinded(Context, leading);
    SidesOfKinded(Remove, removed);
    SidesOfKinded(Add, added);
    SidesOfKinded(Context, trailing);
    assert leading + removed + [] == leading + removed;
    assert leading + [] == leading;
  }

  lemma Regroup(a: seq<string>, b: seq<string>, c: seq<string>, d: seq<string>, e: seq<string>)
    ensures a + (b + c + d) + e == (a + b) + c + (d + e)
  {
  }

  lemma TwoSlices(lines: seq<string>, i: nat, j: nat, k: nat)
    requires i <= j <= k <= |lines|
    ensures lines[i..j] + lines[j..k] == lines[i..k]
  {
  }

  lemma SpanOfTwo(before: seq<string>, after: seq<string>, prefix: nat, suffix: nat, start: nat, end: nat)
    requires IsSpan(before, after, prefix, suffix)
    requires start <= prefix && |before| - suffix <= end <= |before|
    ensures var trailing := before[|before| - suffix..end];
            && before[start..prefix] + before[prefix..|before| - suffix] + trailing == before[start..end]
            && before[..start] + (before[start..prefix] + after[prefix..|after| - suffix] + trailing)
               + before[end..] == after
  {
    TwoSlices(before, start, prefix, |before| - suffix);
    TwoSlices(before, start, |before| - suffix, end);
    OtherSide(before, after, prefix, suffix, start, end);
  }

  lemma OtherSide(before: seq<string>, after: seq<string>, prefix: nat, suffix: nat, start: nat, end: nat)
    requires IsSpan(before, after, prefix, suffix)
    requires start <= prefix && |before| - suffix <= end <= |before|
    ensures before[..start] + (before[start..prefix] + after[prefix..|after| - suffix] + before[|before| - suffix..end])
            + before[end..] == after
  {
    Regroup(before[..start], before[start..prefix], after[prefix..|after| - suffix], before[|before| - suffix..end],
            before[end..]);
    TwoSlices(before, 0, start, prefix);
    TwoSlices(before, |before| - suffix, end, |before|);
    TwoSlices(after, 0, prefix, |after| - suffix);
    TwoSlices(after, 0, |after| - suffix, |after|);
    assert before[0..start] == before[..start] && before[0..prefix] == after[..prefix] == after[0..prefix];
    assert before[end..|before|] == before[end..] && after[0..|after|] == after;
    assert before[..start] + before[start..prefix] == after[..prefix];
    assert before[|before| - suffix..end] + before[end..] == after[|after| - suffix..];
    assert after[..prefix] + after[prefix..|after| - suffix] + after[|after| - suffix..] == after;
  }

  /** The old side is a window of the first text; putting the new side in its place gives the second text. */
  lemma BodyTurnsBeforeIntoAfter(before: seq<string>, after: seq<string>, prefix: nat, suffix: nat)
    requires IsSpan(before, after, prefix, suffix)
    ensures var w, body := WindowOf(|before|, prefix, suffix), Body(before, after, prefix, suffix);
            && OldSide(body) == before[w.start..w.end]
            && before[..w.start] + NewSide(body) + before[w.end..] == after
            && (w.start == w.end <==> before == [])
  {
    var b, a := WindowOf(|before|, prefix, suffix), WindowOf(|after|, prefix, suffix);
    var leading, removed, added, trailing :=
      before[b.start..b.changed], before[b.changed..b.changedEnd],
      after[a.changed..a.changedEnd], before[b.changedEnd..b.end];
    SidesOfFour(leading, removed, added, trailing);
    SpanOfTwo(before, after, prefix, suffix, b.start, b.end);
  }

  // ----- parsing what was printed -----

  lemma HeaderIsPlain(b: Window, a: Window)
    requires b.start <= b.end && a.start <= a.end
    ensures Ordinary(HunkHeader(b, a)) && StartsWith(HunkHeader(b, a), "@@")
  {
    HeaderRestIsPlain(b.end - b.start, a.start, a.end - a.start);
    DigitsArePlain(Decimal(b.start + 1));
  }

  lemma HeaderRestIsPlain(beforeCount: nat, afterStart: nat, afterCount: nat)
    ensures Plain(HeaderRest(beforeCount, afterStart, afterCount))
    ensures var rest := HeaderRest(beforeCount, afterStart, afterCount); rest != "" && rest[0] == ','
  {
    DigitsArePlain(Decimal(beforeCount));
    DigitsArePlain(Decimal(afterStart + 1));
    DigitsArePlain(Decimal(afterCount));
  }

  lemma DigitsArePlain(digits: string)
    requires forall i :: 0 <= i < |digits| ==> IsDigit(digits[i])
    ensures Plain(digits)
  {
  }

  lemma {:induction false} OldStartOfHunkHeader(b: Window, a: Window)
    requires b.start <= b.end && a.start <= a.end
    ensures HunkOldStart(HunkHeader(b, a)) == Some(b.start + 1)
  {
    HeaderRestIsPlain(b.end - b.start, a.start, a.end - a.start);
    OldStartOfHeader(HunkHeader(b, a), b.start + 1, HeaderRest(b.end - b.start, a.start, a.end - a.start));
  }

  lemma BodyIsPlain(before: seq<string>, after: seq<string>, prefix: nat, suffix: nat)
    requires prefix + suffix <= |before| && prefix + suffix <= |after|
    requires AllPlain(before) && AllPlain(after)
    ensures forall line :: line in Body(before, after, prefix, suffix) ==> Plain(line.value)
  {
    var b, a := WindowOf(|before|, prefix, suffix), WindowOf(|after|, prefix, suffix);
    KindedIsPlain(Context, before[b.start..b.changed]);
    KindedIsPlain(Remove, before[b.changed..b.changedEnd]);
    KindedIsPlain(Add, after[a.changed..a.changedEnd]);
    KindedIsPlain(Context, before[b.changedEnd..b.end]);
  }

  lemma KindedIsPlain(kind: LineKind, lines: seq<string>)
    requires AllPlain(lines)
    ensures forall line :: line in Kinded(kind, lines) ==> Plain(line.value)
  {
    forall line | line in Kinded(kind, lines)
      ensures Plain(line.value)
    {
      var i :| 0 <= i < |lines| && line == Kinded(kind, lines)[i];
      assert lines[i] in lines;
    }
  }

  lemma {:induction false} OldStartOfHeader(header: string, line: nat, rest: string)
    requires rest != "" && !IsDigit(rest[0]) && header == "@@ -" + Decimal(line) + rest
    ensures HunkOldStart(header) == Some(Max(1, line))
  {
    var digits := Decimal(line);
    assert header[2..] == " -" + (digits + rest);
    assert header[2..][1..] == "-" + (digits + rest);
    assert SpaceRun("-" + (digits + rest)) == 0;
    assert SpaceRun(header[2..]) == 1;
    assert ("-" + (digits + rest))[1..] == digits + rest;
    RunOfDigits(digits, rest);
    assert (digits + rest)[..|digits|] == digits;
    NumberOfDecimal(line);
  }

  predicate SafeLine(line: HunkLine) {
    && Plain(line.value)
    && (line.kind == Remove ==> !StartsWith(line.value, "-- "))
    && (line.kind == Add ==> !StartsWith(line.value, "++ "))
  }

  lemma PrefixTail(text: string, prefix: string, tail: string)
    requires text != "" && prefix != "" && prefix[1..] == tail
    ensures StartsWith(text, prefix) <==> text[0] == prefix[0] && StartsWith(text[1..], tail)
  {
    assert prefix == [prefix[0]] + tail;
    assert text == [text[0]] + text[1..];
  }

  function Extended(s: ParseState, body: seq<HunkLine>): ParseState
    requires s.hunk.Some?
  {
    s.(hunk := Some(Hunk(s.hunk.value.oldStart, s.hunk.value.lines + body)))
  }

  lemma ExtendedTwice(s: ParseState, body: seq<HunkLine>)
    requires s.hunk.Some? && body != []
    ensures Extended(Extended(s, [body[0]]), body[1..]) == Extended(s, body)
  {
    assert s.hunk.value.lines + [body[0]] + body[1..] == s.hunk.value.lines + body;
  }

  lemma SafeLineParses(s: ParseState, diffPath: string -> string, line: HunkLine)
    requires s.current.Some? && s.hunk.Some? && !s.current.value.isDeleted && SafeLine(line)
    ensures ParseLine(s, false, diffPath, StripCr(PrintLine(line))) == Extended(s, [line])
  {
    var printed := PrintLine(line);
    assert printed[1..] == line.value;
    assert StripCr(printed) == printed;
    PrefixTail(printed, "--- ", "-- ");
    PrefixTail(printed, "+++ ", "++ ");
  }

  lemma {:induction false} SafeLinesParse(s: ParseState, diffPath: string -> string, lines: seq<string>, n: nat,
                                          body: seq<HunkLine>)
    requires n <= |lines| && lines[n..] == PrintLines(body)
    requires s.current.Some? && s.hunk.Some? && !s.current.value.isDeleted
    requires forall line :: line in body ==> SafeLine(line)
    ensures ParseLines(LineParser(false, diffPath), s, lines, n) == Extended(s, body)
    decreases |body|
  {
    if body == [] {
      assert n == |lines|;
      assert s.hunk.value.lines + body == s.hunk.value.lines;
    } else {
      assert lines[n] == lines[n..][0] == PrintLine(body[0]);
      assert lines[n + 1..] == lines[n..][1..] == PrintLines(body[1..]);
      SafeLineParses(s, diffPath, body[0]);
      SafeLinesParse(Extended(s, [body[0]]), diffPath, lines, n + 1, body[1..]);
      ExtendedTwice(s, body);
    }
  }

  lemma BodyIsSafe(before: seq<string>, after: seq<string>, prefix: nat, suffix: nat)
    requires prefix + suffix <= |before| && prefix + suffix <= |after|
    requires AllPlain(before) && AllPlain(after) && Unmistakable(before, after, prefix, suffix)
    ensures forall line :: line in Body(before, after, prefix, suffix) ==> SafeLine(line)
  {
    var b, a := WindowOf(|before|, prefix, suffix), WindowOf(|after|, prefix, suffix);
    KindedIsSafe(Context, before[b.start..b.changed]);
    KindedIsSafe(Remove, before[b.changed..b.changedEnd]);
    KindedIsSafe(Add, after[a.changed..a.changedEnd]);
    KindedIsSafe(Context, before[b.changedEnd..b.end]);
  }

  lemma KindedIsSafe(kind: LineKind, lines: seq<string>)
    requires AllPlain(lines)
    requires kind == Remove ==> forall line :: line in lines ==> !StartsWith(line, "-- ")
    requires kind == Add ==> forall line :: line in lines ==> !StartsWith(line, "++ ")
    ensures forall line :: line in Kinded(kind, lines) ==> SafeLine(line)
  {
    forall line | line in Kinded(kind, lines)
      ensures SafeLine(line)
    {
      var i :| 0 <= i < |lines| && line == Kinded(kind, lines)[i];
      assert lines[i] in lines;
    }
  }

  function PrintedLines(file: string, before: seq<string>, after: seq<string>, prefix: nat, suffix: nat): seq<string>
    requires prefix + suffix <= |before| && prefix + suffix <= |after|
  {
    var b, a := WindowOf(|before|, prefix, suffix), WindowOf(|after|, prefix, suffix);
    ["--- a/" + file, "+++ b/" + file, HunkHeader(b, a)]
    + PrintLines(Body(before, after, prefix, suffix))
  }

  lemma PrintedLinesArePlain(file: string, before: seq<string>, after: seq<string>, prefix: nat, suffix: nat)
    requires prefix + suffix <= |before| && prefix + suffix <= |after|
    requires Plain(file) && forall line :: line in Body(before, after, prefix, suffix) ==> Plain(line.value)
    ensures AllPlain(PrintedLines(file, before, after, prefix, suffix))
    ensures BEGIN_PATCH !in PrintedLines(file, before, after, prefix, suffix)
  {
    HeaderIsPlain(WindowOf(|before|, prefix, suffix), WindowOf(|after|, prefix, suffix));
    FileLinesAreOrdinary(file);
    PrintedBodyIsOrdinary(Body(before, after, prefix, suffix));
    var lines := PrintedLines(file, before, after, prefix, suffix);
    assert forall line :: line in lines ==> Ordinary(line);
    assert !Ordinary(BEGIN_PATCH);
  }

  /** A line that is not a marker of the other patch format. */
  predicate Ordinary(line: string) {
    Plain(line) && line != "" && line[0] != '*'
  }

  lemma FileLinesAreOrdinary(file: string)
    requires Plain(file)
    ensures Ordinary("--- a/" + file) && Ordinary("+++ b/" + file)
  {
  }

  lemma PrintedBodyIsOrdinary(body: seq<HunkLine>)
    requires forall line :: line in body ==> Plain(line.value)
    ensures forall line :: line in PrintLines(body) ==> Ordinary(line)
  {
    forall line | line in PrintLines(body)
      ensures Ordinary(line)
    {
      var i :| 0 <= i < |body| && line == PrintLines(body)[i];
      assert body[i] in body && Plain(body[i].value);
    }
  }

  /** The parser sees exactly the lines that were printed. */
  lemma PatchTextLinesOfPrinted(file: string, before: seq<string>, after: seq<string>, prefix: nat, suffix: nat)
    requires prefix + suffix <= |before| && prefix + suffix <= |after|
    requires AllPlain(PrintedLines(file, before, after, prefix, suffix))
    ensures PatchTextLines(PrintDiff(file, before, after, prefix, suffix))
         == PrintedLines(file, before, after, prefix, suffix)
  {
    var lines := PrintedLines(file, before, after, prefix, suffix);
    var all := lines + [""];
    SplitJoin(all);
    var pieces := SplitLines(Join(all, "\n"));
    forall i | 0 <= i < |all|
      ensures pieces[i] == all[i]
    {
      assert all[i] in all;
    }
    assert pieces == all;
  }

  /** One patch with one hunk comes back: the printed hunk, at the line it was printed for. */
  lemma ParseReadsWhatWasPrinted(file: string, before: seq<string>, after: seq<string>, prefix: nat, suffix: nat,
                                 diffPath: string -> string)
    requires prefix + suffix <= |before| && prefix + suffix <= |after|
    requires AllPlain(before) && AllPlain(after) && Unmistakable(before, after, prefix, suffix)
    requires PlainName(file)
    ensures ParseUnifiedDiff(PrintDiff(file, before, after, prefix, suffix), diffPath)
         == [FilePatch(ParsedPath(file, diffPath), [TheHunk(before, after, prefix, suffix)], false, false)]
  {
    var lines, body := PrintedLines(file, before, after, prefix, suffix), Body(before, after, prefix, suffix);
    var path, start := ParsedPath(file, diffPath), WindowOf(|before|, prefix, suffix).start + 1;
    BodyIsSafe(before, after, prefix, suffix);
    HeadersParse(file, before, after, prefix, suffix, diffPath);
    assert lines[3..] == PrintLines(body);
    SafeLinesParse(Opened(path, Some(Hunk(Some(start), []))), diffPath, lines, 3, body);
    FinishedPatch(path, start, body);
  }

  /** The parser reaches the body of the hunk inside the one patch it has opened. */
  lemma HeadersParse(file: string, before: seq<string>, after: seq<string>, prefix: nat, suffix: nat,
                     diffPath: string -> string)
    requires prefix + suffix <= |before| && prefix + suffix <= |after|
    requires AllPlain(before) && AllPlain(after) && PlainName(file)
    ensures var lines := PrintedLines(file, before, after, prefix, suffix);
            var path := ParsedPath(file, diffPath);
            var hunk := Hunk(Some(WindowOf(|before|, prefix, suffix).start + 1), []);
            ParseUnifiedDiff(PrintDiff(file, before, after, prefix, suffix), diffPath)
              == FinishPatch(ParseLines(LineParser(false, diffPath), Opened(path, Some(hunk)), lines, 3)).files
  {
    var lines := PrintedLines(file, before, after, prefix, suffix);
    PrintedDiffIsReadByLine(file, before, after, prefix, suffix, diffPath);
    FileLinesParse(file, diffPath, lines);
    HunkHeaderParses(ParsedPath(file, diffPath), WindowOf(|before|, prefix, suffix), WindowOf(|after|, prefix, suffix),
                     diffPath, lines);
  }

  lemma PrintedDiffIsReadByLine(file: string, before: seq<string>, after: seq<string>, prefix: nat, suffix: nat,
                                diffPath: string -> string)
    requires prefix + suffix <= |before| && prefix + suffix <= |after|
    requires AllPlain(before) && AllPlain(after) && PlainName(file)
    ensures ParseUnifiedDiff(PrintDiff(file, before, after, prefix, suffix), diffPath)
         == FinishPatch(ParseLines(LineParser(false, diffPath), ParseState([], None, None),
                                   PrintedLines(file, before, after, prefix, suffix), 0)).files
  {
    BodyIsPlain(before, after, prefix, suffix);
    PrintedLinesArePlain(file, before, after, prefix, suffix);
    PatchTextLinesOfPrinted(file, before, after, prefix, suffix);
  }

  /** The state of the parser inside the one patch. */
  function Opened(path: string, hunk: Option<Hunk>): ParseState {
    ParseState([], Some(FilePatch(path, [], false, false)), hunk)
  }

  function ParsedPath(file: string, diffPath: string -> string): string {
    if diffPath("b/" + file) != "" then diffPath("b/" + file) else diffPath("a/" + file)
  }

  lemma FinishedPatch(path: string, start: nat, body: seq<HunkLine>)
    ensures FinishPatch(Extended(Opened(path, Some(Hunk(Some(start), []))), body)).files
         == [FilePatch(path, [Hunk(Some(start), body)], false, false)]
  {
    var hunk := Hunk(Some(start), body);
    assert [] + body == body && [] + [hunk] == [hunk];
    var patch := FilePatch(path, [hunk], false, false);
    assert [] + [patch] == [patch];
  }

  lemma {:induction false} FileLinesParse(file: string, diffPath: string -> string, lines: seq<string>)
    requires 2 <= |lines| && lines[0] == "--- a/" + file && lines[1] == "+++ b/" + file && PlainName(file)
    ensures var path := ParsedPath(file, diffPath);
            ParseLines(LineParser(false, diffPath), ParseState([], None, None), lines, 0)
              == ParseLines(LineParser(false, diffPath), Opened(path, None), lines, 2)
  {
    OldFileLineParses(file, diffPath);
    NewFileLineParses(file, diffPath);
  }

  lemma OldFileLineParses(file: string, diffPath: string -> string)
    requires PlainName(file)
    ensures ParseLine(ParseState([], None, None), false, diffPath, StripCr("--- a/" + file))
         == Opened(diffPath("a/" + file), None)
  {
    assert StripCr("--- a/" + file) == "--- a/" + file;
    assert ("--- a/" + file)[4..] == "a/" + file;
  }

  lemma NewFileLineParses(file: string, diffPath: string -> string)
    requires PlainName(file)
    ensures ParseLine(Opened(diffPath("a/" + file), None), false, diffPath, StripCr("+++ b/" + file))
         == Opened(ParsedPath(file, diffPath), None)
  {
    var line := "+++ b/" + file;
    assert StripCr(line) == line;
    assert line[4..] == "b/" + file;
    assert line[0] != "--- "[0];
    assert "+++ " <= line;
  }

  lemma HunkHeaderParses(path: string, b: Window, a: Window, diffPath: string -> string, lines: seq<string>)
    requires b.start <= b.end && a.start <= a.end
    requires 3 <= |lines| && lines[2] == HunkHeader(b, a)
    ensures ParseLines(LineParser(false, diffPath), Opened(path, None), lines, 2)
         == ParseLines(LineParser(false, diffPath), Opened(path, Some(Hunk(Some(b.start + 1), []))), lines, 3)
  {
    HeaderIsPlain(b, a);
    OldStartOfHunkHeader(b, a);
    HunkHeaderOpensHunk(path, HunkHeader(b, a), b.start + 1, diffPath);
  }

  lemma HunkHeaderOpensHunk(path: string, header: string, start: nat, diffPath: string -> string)
    requires Plain(header) && StartsWith(header, "@@") && HunkOldStart(header) == Some(start)
    ensures ParseLine(Opened(path, None), false, diffPath, StripCr(header)) == Opened(path, Some(Hunk(Some(start), [])))
  {
    assert StripCr(header) == header;
    assert header[0] == "@@"[0];
    assert header[0] != "--- "[0] && header[0] != "+++ "[0];
  }

  // ----- applying what was parsed -----

  /** When a diff of these texts, applied to the first, gives the second. */
  predicate RoundTrips(original: string, updated: string) {
    && original != "\n" && updated != "\n"
    && (updated == "" || EndsWithNewline(updated) == (original == "" || EndsWithNewline(original)))
  }

  lemma OneHunkReplacesWindow(original: string, updated: string, prefix: nat, suffix: nat)
    requires '\r' !in original && '\r' !in updated && original != "\n"
    requires IsSpan(DiffLines(original), DiffLines(updated), prefix, suffix)
    ensures ApplyHunks(original, [TheHunk(DiffLines(original), DiffLines(updated), prefix, suffix)])
         == Applied(JoinPatchLines(original, SplitPatchLines(original), DiffLines(updated)))
  {
    var before, after := DiffLines(original), DiffLines(updated);
    var hunk, w := TheHunk(before, after, prefix, suffix), WindowOf(|before|, prefix, suffix);
    BodyTurnsBeforeIntoAfter(before, after, prefix, suffix);
    HunkReplacesWindow(original, hunk, w.start, w.end);
  }

  /** A hunk at its stated line puts its new side in the place of its old side, also where there are no lines. */
  lemma HunkReplacesWindow(original: string, hunk: Hunk, start: nat, end: nat)
    requires '\r' !in original && original != "\n"
    requires start <= end <= |DiffLines(original)| && (start == end <==> DiffLines(original) == [])
    requires OldSide(hunk.lines) == DiffLines(original)[start..end] && hunk.oldStart == Some(start + 1)
    ensures ApplyHunks(original, [hunk]) == Applied(JoinPatchLines(original, SplitPatchLines(original),
              DiffLines(original)[..start] + NewSide(hunk.lines) + DiffLines(original)[end..]))
  {
    var before := DiffLines(original);
    PatchLinesAreDiffLines(original);
    if before == [] {
      assert OldSide(hunk.lines) == [];
      assert before[..start] + NewSide(hunk.lines) + before[end..] == NewSide(hunk.lines);
      InsertionIntoNothing(original, hunk);
    } else {
      SoleHunkReplacesWindow(original, hunk, start, end);
    }
  }

  lemma InsertionIntoNothing(original: string, hunk: Hunk)
    requires SplitPatchLines(original).lines == [] && OldSide(hunk.lines) == []
    ensures ApplyHunks(original, [hunk])
         == Applied(JoinPatchLines(original, SplitPatchLines(original), NewSide(hunk.lines)))
  {
    SoleHunkInNothing(hunk);
  }

  lemma SoleHunkInNothing(hunk: Hunk)
    requires OldSide(hunk.lines) == []
    ensures ApplyFrom(Progress([], 0, []), [hunk], 0) == Progress(NewSide(hunk.lines), Growth(hunk.lines), [])
  {
    WalkReplacesWindow([], [], hunk.lines);
    assert [] + OldSide(hunk.lines) + [] == [];
    assert [] + NewSide(hunk.lines) + [] == NewSide(hunk.lines);
    var end := ApplyOne(Progress([], 0, []), hunk, 0);
    assert ApplyFrom(Progress([], 0, []), [hunk], 0) == end;
  }

  lemma SoleHunkReplacesWindow(original: string, hunk: Hunk, start: nat, end: nat)
    requires var lines := SplitPatchLines(original).lines;
             start < end <= |lines| && OldSide(hunk.lines) == lines[start..end] && hunk.oldStart == Some(start + 1)
    ensures var split := SplitPatchLines(original);
            ApplyHunks(original, [hunk])
              == Applied(JoinPatchLines(original, split,
                                        split.lines[..start] + NewSide(hunk.lines) + split.lines[end..]))
  {
    var lines := SplitPatchLines(original).lines;
    assert MatchesAt(lines, OldSide(hunk.lines), start);
    assert InPlace(lines, [hunk], 1, end);
    assert InPlace(lines, [hunk], 0, 0);
    ApplyHunksReplacesTogether(original, [hunk]);
    assert ReplacedTogether(lines, [hunk], 1, end) == lines[end..];
    assert ReplacedTogether(lines, [hunk], 0, 0) == lines[..start] + NewSide(hunk.lines) + lines[end..];
  }

  lemma RejoinedText(original: string, updated: string)
    requires '\r' !in original && '\r' !in updated && original != "\n"
    ensures (JoinPatchLines(original, SplitPatchLines(original), DiffLines(updated)) == updated)
              <==> RoundTrips(original, updated)
  {
    PatchLinesAreDiffLines(original);
    JoinDiffLines(updated);
    EndingDecides(updated, Join(DiffLines(updated), "\n"), EndsWithNewline(original) || original == "");
  }

  lemma EndingDecides(updated: string, joined: string, ends: bool)
    requires joined == if EndsWithNewline(updated) then updated[..|updated| - 1] else updated
    ensures (if joined != "" && ends then joined + "\n" else joined) == updated <==>
            updated == "" || (updated != "\n" && ends == EndsWithNewline(updated))
  {
    assert |joined + "\n"| == |joined| + 1;
    if EndsWithNewline(updated) {
      assert updated == joined + "\n";
    }
  }

  /** A text of one empty line counts as a text without lines, so a hunk that expects that line is refused. */
  lemma EmptyLineIsRefused(hunk: Hunk)
    requires OldSide(hunk.lines) == [""]
    ensures ApplyHunks("\n", [hunk]) == Rejected([ContextNotFound(0)])
  {
    PatchLinesAreDiffLines("\n");
    assert Candidates([], [""], 0) == [];
    var end := ApplyOne(Progress([], 0, []), hunk, 0);
    assert end == Progress([], 0, [ContextNotFound(0)]);
    assert ApplyFrom(Progress([], 0, []), [hunk], 0) == end;
  }

  lemma TheHunkApplies(original: string, updated: string, prefix: nat, suffix: nat)
    requires '\r' !in original && '\r' !in updated
    requires IsSpan(DiffLines(original), DiffLines(updated), prefix, suffix)
    ensures var hunk := TheHunk(DiffLines(original), DiffLines(updated), prefix, suffix);
            ApplyHunks(original, [hunk]) == Applied(updated) <==> RoundTrips(original, updated)
  {
    if original == "\n" {
      TheHunkIsRefused(DiffLines(original), DiffLines(updated), prefix, suffix);
    } else {
      OneHunkReplacesWindow(original, updated, prefix, suffix);
      RejoinedText(original, updated);
    }
  }

  lemma TheHunkIsRefused(before: seq<string>, after: seq<string>, prefix: nat, suffix: nat)
    requires IsSpan(before, after, prefix, suffix) && before == [""]
    ensures ApplyHunks("\n", [TheHunk(before, after, prefix, suffix)]).Rejected?
  {
    BodyTurnsBeforeIntoAfter(before, after, prefix, suffix);
    EmptyLineIsRefused(TheHunk(before, after, prefix, suffix));
  }

  /**
   Print, parse and apply. For texts without carriage returns and a changed span that cannot be mistaken
   for header lines, one hunk comes back, and applying it gives the second text exactly when `RoundTrips`.
   */
  lemma UnmistakableDiffApplies(file: string, original: string, updated: string, prefix: nat, suffix: nat,
                                diffPath: string -> string)
    requires '\r' !in original && '\r' !in updated && PlainName(file)
    requires IsSpan(DiffLines(original), DiffLines(updated), prefix, suffix)
    requires Unmistakable(DiffLines(original), DiffLines(updated), prefix, suffix)
    ensures var patches := ParseUnifiedDiff(PrintDiff(file, DiffLines(original), DiffLines(updated), prefix, suffix),
                                            diffPath);
            && |patches| == 1 && |patches[0].hunks| == 1 && !patches[0].isNewFile && !patches[0].isDeleted
            && (ApplyHunks(original, patches[0].hunks) == Applied(updated) <==> RoundTrips(original, updated))
  {
    DiffLinesArePlain(original);
    DiffLinesArePlain(updated);
    ParseReadsWhatWasPrinted(file, DiffLines(original), DiffLines(updated), prefix, suffix, diffPath);
    TheHunkApplies(original, updated, prefix, suffix);
  }
}
