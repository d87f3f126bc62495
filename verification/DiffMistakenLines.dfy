/**
 What becomes of a printed diff whose removed or added lines look like the header lines of a patch, and
 with it the exact condition under which a diff patches the text it was printed for.
 */
module DiffMistakenLines {
  import opened Options
  import opened TextLines
  import opened LineSpans
  import opened PatchApply
  import opened UnifiedDiff
  import opened DiffRoundTrip

  // ----- a removed line that opens a second patch -----

  /** A line that opens a patch closes the one before it, and no other line drops a patch. */
  lemma LineKeepsPatches(s: ParseState, diffPath: string -> string, line: string)
    requires s.current.Some?
    ensures var next := ParseLine(s, false, diffPath, line);
            next.current.Some? && |next.files| == |s.files| + (if StartsWith(line, "--- ") then 1 else 0)
  {
  }

  lemma {:induction false} LinesKeepPatches(s: ParseState, diffPath: string -> string, lines: seq<string>, n: nat)
    requires n <= |lines| && s.current.Some?
    ensures var end := ParseLines(LineParser(false, diffPath), s, lines, n);
            && end.current.Some? && |s.files| <= |end.files|
            && ((exists i :: n <= i < |lines| && StartsWith(StripCr(lines[i]), "--- ")) ==> |s.files| < |end.files|)
    decreases |lines| - n
  {
    if n < |lines| {
      LineKeepsPatches(s, diffPath, StripCr(lines[n]));
      LinesKeepPatches(ParseLine(s, false, diffPath, StripCr(lines[n])), diffPath, lines, n + 1);
    }
  }

  // ----- an added line that is swallowed -----

  predicate IsSwallowed(line: HunkLine) {
    line.kind == Add && StartsWith(line.value, "++ ")
  }

  function Kept(body: seq<HunkLine>): seq<HunkLine> {
    if body == [] then []
    else (if IsSwallowed(body[0]) then [] else [body[0]]) + Kept(body[1..])
  }

  predicate Shortens(kept: seq<HunkLine>, body: seq<HunkLine>) {
    && OldSide(kept) == OldSide(body) && |NewSide(kept)| < |NewSide(body)|
    && forall line :: line in NewSide(kept) ==> line in NewSide(body)
  }

  lemma {:induction false} KeptSides(body: seq<HunkLine>)
    ensures OldSide(Kept(body)) == OldSide(body)
    ensures |NewSide(Kept(body))| <= |NewSide(body)|
    ensures (exists line :: line in body && IsSwallowed(line)) ==> |NewSide(Kept(body))| < |NewSide(body)|
    ensures forall line :: line in NewSide(Kept(body)) ==> line in NewSide(body)
  {
    if body != [] {
      KeptSides(body[1..]);
      if IsSwallowed(body[0]) {
        assert Kept(body) == Kept(body[1..]);
      } else {
        assert Kept(body)[0] == body[0] && Kept(body)[1..] == Kept(body[1..]);
      }
    }
  }

  /** Lines that open no patch leave one hunk with the lines that are not swallowed, or a deleted file. */
  predicate Follows(s: ParseState, end: ParseState, body: seq<HunkLine>)
    requires s.current.Some? && s.hunk.Some?
  {
    && end.files == s.files && end.current.Some? && end.hunk.Some?
    && end.current.value.hunks == s.current.value.hunks
    && (s.current.value.isDeleted ==> end.current.value.isDeleted)
    && (end.current.value.isDeleted
        || end.hunk.value == Hunk(s.hunk.value.oldStart, s.hunk.value.lines + Kept(body)))
  }

  predicate OpensNoPatch(line: HunkLine) {
    Plain(line.value) && (line.kind == Remove ==> !StartsWith(line.value, "-- "))
  }

  lemma BodyLineFollows(s: ParseState, diffPath: string -> string, line: HunkLine)
    requires s.current.Some? && s.hunk.Some? && OpensNoPatch(line)
    ensures Follows(s, ParseLine(s, false, diffPath, StripCr(PrintLine(line))), [line])
  {
    var printed := PrintLine(line);
    assert printed[1..] == line.value;
    assert StripCr(printed) == printed;
    PrefixTail(printed, "--- ", "-- ");
    PrefixTail(printed, "+++ ", "++ ");
    if IsSwallowed(line) {
      assert s.hunk.value.lines + Kept([line]) == s.hunk.value.lines;
    } else {
      assert Kept([line]) == [line];
      if !s.current.value.isDeleted {
        SafeLineParses(s, diffPath, line);
      }
    }
  }

  lemma FollowsTwice(s: ParseState, next: ParseState, end: ParseState, body: seq<HunkLine>)
    requires s.current.Some? && s.hunk.Some? && body != [] && Follows(s, next, [body[0]])
    requires next.current.Some? && next.hunk.Some? && Follows(next, end, body[1..])
    ensures Follows(s, end, body)
  {
    assert [body[0]][1..] == [];
    assert Kept([body[0]]) + Kept(body[1..]) == Kept(body);
    assert s.hunk.value.lines + Kept([body[0]]) + Kept(body[1..]) == s.hunk.value.lines + Kept(body);
  }

  lemma {:induction false} BodyLinesFollow(s: ParseState, diffPath: string -> string, lines: seq<string>, n: nat,
                                           body: seq<HunkLine>)
    requires n <= |lines| && lines[n..] == PrintLines(body)
    requires s.current.Some? && s.hunk.Some?
    requires forall line :: line in body ==> OpensNoPatch(line)
    ensures Follows(s, ParseLines(LineParser(false, diffPath), s, lines, n), body)
    decreases |body|
  {
    if body == [] {
      assert n == |lines|;
      assert s.hunk.value.lines + Kept(body) == s.hunk.value.lines;
    } else {
      assert lines[n] == lines[n..][0] == PrintLine(body[0]);
      assert lines[n + 1..] == lines[n..][1..] == PrintLines(body[1..]);
      BodyLineFollows(s, diffPath, body[0]);
      var next := ParseLine(s, false, diffPath, StripCr(lines[n]));
      BodyLinesFollow(next, diffPath, lines, n + 1, body[1..]);
      FollowsTwice(s, next, ParseLines(LineParser(false, diffPath), next, lines, n + 1), body);
    }
  }

  // ----- too few lines cannot give the text -----

  lemma TextHasNoMoreLinesThanJoined(original: string, split: PatchLines, lines: seq<string>)
    requires split.lineEnding == "\n" && forall line :: line in lines ==> '\n' !in line
    ensures |DiffLines(JoinPatchLines(original, split, lines))| <= |lines|
  {
    var joined := Join(lines, "\n");
    if joined != "" {
      SplitJoin(lines);
      assert (joined + "\n")[..|joined|] == joined;
      DiffLinesAreNoMoreThanPieces(joined);
    }
  }

  lemma DiffLinesAreNoMoreThanPieces(text: string)
    ensures |DiffLines(text)| <= |Split(text)|
  {
    if EndsWithNewline(text) {
      OnePieceMore(text[..|text| - 1], text);
    }
  }

  lemma OnePieceMore(front: string, text: string)
    requires text == front + "\n"
    ensures |Split(text)| == |Split(front)| + 1
  {
    SplitAtNewline(front, "");
    assert front + "\n" + "" == text;
  }

  lemma RemovedLineOpensPatch(file: string, before: seq<string>, after: seq<string>, prefix: nat, suffix: nat,
                              diffPath: string -> string, removed: string)
    requires prefix + suffix <= |before| && prefix + suffix <= |after|
    requires AllPlain(before) && AllPlain(after) && PlainName(file)
    requires removed in before[prefix..|before| - suffix] && StartsWith(removed, "-- ")
    ensures 2 <= |ParseUnifiedDiff(PrintDiff(file, before, after, prefix, suffix), diffPath)|
  {
    var lines := PrintedLines(file, before, after, prefix, suffix);
    var path := ParsedPath(file, diffPath);
    HeadersParse(file, before, after, prefix, suffix, diffPath);
    RemovedLineIsPrinted(file, before, after, prefix, suffix, removed);
    var hunk := Hunk(Some(WindowOf(|before|, prefix, suffix).start + 1), []);
    LinesKeepPatches(Opened(path, Some(hunk)), diffPath, lines, 3);
  }

  lemma RemovedLineIsPrinted(file: string, before: seq<string>, after: seq<string>, prefix: nat, suffix: nat,
                             removed: string)
    requires prefix + suffix <= |before| && prefix + suffix <= |after| && AllPlain(before)
    requires removed in before[prefix..|before| - suffix] && StartsWith(removed, "-- ")
    ensures var lines := PrintedLines(file, before, after, prefix, suffix);
            exists i :: 3 <= i < |lines| && StartsWith(StripCr(lines[i]), "--- ")
  {
    var w, body := WindowOf(|before|, prefix, suffix), Body(before, after, prefix, suffix);
    var k :| 0 <= k < |before| - suffix - prefix && before[prefix..|before| - suffix][k] == removed;
    var at := prefix - w.start + k;
    assert body[at] == HunkLine(Remove, removed);
    var lines := PrintedLines(file, before, after, prefix, suffix);
    assert lines[3 + at] == PrintLine(body[at]) == "-" + removed;
    assert removed in before;
    PrefixTail("-" + removed, "--- ", "-- ");
    assert StripCr(lines[3 + at]) == lines[3 + at];
  }

  lemma AddedLineIsInBody(before: seq<string>, after: seq<string>, prefix: nat, suffix: nat, added: string)
    requires prefix + suffix <= |before| && prefix + suffix <= |after|
    requires added in after[prefix..|after| - suffix]
    ensures HunkLine(Add, added) in Body(before, after, prefix, suffix)
  {
    var lines := after[prefix..|after| - suffix];
    var k :| 0 <= k < |lines| && lines[k] == added;
    assert Kinded(Add, lines)[k] == HunkLine(Add, added);
  }

  /** Without a removed line that opens a patch: one patch, and of its hunk the lines that are not swallowed. */
  lemma AddedLinesAreSwallowed(file: string, before: seq<string>, after: seq<string>, prefix: nat, suffix: nat,
                               diffPath: string -> string)
    requires prefix + suffix <= |before| && prefix + suffix <= |after|
    requires AllPlain(before) && AllPlain(after) && PlainName(file)
    requires forall line :: line in Body(before, after, prefix, suffix) ==> OpensNoPatch(line)
    ensures var files := ParseUnifiedDiff(PrintDiff(file, before, after, prefix, suffix), diffPath);
            var w := WindowOf(|before|, prefix, suffix);
            && |files| == 1
            && (files[0].isDeleted
                || files[0].hunks == [Hunk(Some(w.start + 1), Kept(Body(before, after, prefix, suffix)))])
  {
    var lines, body := PrintedLines(file, before, after, prefix, suffix), Body(before, after, prefix, suffix);
    var path := ParsedPath(file, diffPath);
    var start := Opened(path, Some(Hunk(Some(WindowOf(|before|, prefix, suffix).start + 1), [])));
    HeadersParse(file, before, after, prefix, suffix, diffPath);
    assert lines[3..] == PrintLines(body);
    BodyLinesFollow(start, diffPath, lines, 3, body);
    assert [] + Kept(body) == Kept(body);
  }

  // ----- a hunk with swallowed lines -----

  lemma ShortHunkGivesAnotherText(original: string, updated: string, prefix: nat, suffix: nat, kept: seq<HunkLine>)
    requires '\r' !in original && '\r' !in updated
    requires IsSpan(DiffLines(original), DiffLines(updated), prefix, suffix)
    requires Shortens(kept, Body(DiffLines(original), DiffLines(updated), prefix, suffix))
    ensures var w := WindowOf(|DiffLines(original)|, prefix, suffix);
            ApplyHunks(original, [Hunk(Some(w.start + 1), kept)]) != Applied(updated)
  {
    DiffLinesArePlain(original);
    DiffLinesArePlain(updated);
    ShortHunkGivesOther(original, DiffLines(original), updated, DiffLines(updated), prefix, suffix, kept);
  }

  lemma ShortHunkGivesOther(original: string, before: seq<string>, updated: string, after: seq<string>, prefix: nat,
                            suffix: nat, kept: seq<HunkLine>)
    requires '\r' !in original && before == DiffLines(original) && after == DiffLines(updated)
    requires AllPlain(before) && AllPlain(after) && IsSpan(before, after, prefix, suffix)
    requires Shortens(kept, Body(before, after, prefix, suffix))
    ensures ApplyHunks(original, [Hunk(Some(WindowOf(|before|, prefix, suffix).start + 1), kept)]) != Applied(updated)
  {
    var start, end := ShortHunkLeavesLess(before, after, prefix, suffix, kept);
    if original == "\n" {
      assert before == [""];
      EmptyLineIsRefused(Hunk(Some(start + 1), kept));
    } else {
      FewerLinesAreLeft(original, before, updated, kept, start, end);
    }
  }

  lemma ShortHunkLeavesLess(before: seq<string>, after: seq<string>, prefix: nat, suffix: nat, kept: seq<HunkLine>)
    returns (start: nat, end: nat)
    requires IsSpan(before, after, prefix, suffix) && Shortens(kept, Body(before, after, prefix, suffix))
    requires AllPlain(after)
    ensures start == WindowOf(|before|, prefix, suffix).start && start <= end <= |before|
    ensures OldSide(kept) == before[start..end] && (start == end <==> before == [])
    ensures |before| - (end - start) + |NewSide(kept)| < |after|
    ensures forall line :: line in NewSide(kept) ==> '\n' !in line
  {
    var w, added := WindowOf(|before|, prefix, suffix), NewSide(Body(before, after, prefix, suffix));
    start, end := w.start, w.end;
    BodyTurnsBeforeIntoAfter(before, after, prefix, suffix);
    assert |after| == |before[..start]| + |added| + |before[end..]|;
    forall line | line in NewSide(kept)
      ensures '\n' !in line
    {
      assert line in added && line in before[..start] + added + before[end..];
    }
  }

  /** A hunk that leaves fewer lines than another text has does not give that text. */
  lemma FewerLinesAreLeft(original: string, before: seq<string>, updated: string, kept: seq<HunkLine>, start: nat,
                          end: nat)
    requires '\r' !in original && original != "\n" && before == DiffLines(original) && start <= end <= |before|
    requires (start == end <==> before == []) && OldSide(kept) == before[start..end]
    requires (forall line :: line in before ==> '\n' !in line) && forall line :: line in NewSide(kept) ==> '\n' !in line
    requires |before| - (end - start) + |NewSide(kept)| < |DiffLines(updated)|
    ensures ApplyHunks(original, [Hunk(Some(start + 1), kept)]) != Applied(updated)
  {
    var lines := before[..start] + NewSide(kept) + before[end..];
    PatchLinesAreDiffLines(original);
    HunkReplacesWindow(original, Hunk(Some(start + 1), kept), start, end);
    TextHasNoMoreLinesThanJoined(original, SplitPatchLines(original), lines);
  }

  // ----- the exact condition -----

  lemma MistakenDiffFails(file: string, original: string, updated: string, prefix: nat, suffix: nat,
                          diffPath: string -> string)
    requires '\r' !in original && '\r' !in updated && PlainName(file)
    requires IsSpan(DiffLines(original), DiffLines(updated), prefix, suffix)
    requires !Unmistakable(DiffLines(original), DiffLines(updated), prefix, suffix)
    ensures PatchProposal(original, PrintDiff(file, DiffLines(original), DiffLines(updated), prefix, suffix), diffPath)
         != Patched(updated)
  {
    var before, after := DiffLines(original), DiffLines(updated);
    DiffLinesArePlain(original);
    DiffLinesArePlain(updated);
    if removed :| removed in before[prefix..|before| - suffix] && StartsWith(removed, "-- ") {
      RemovedLineOpensPatch(file, before, after, prefix, suffix, diffPath, removed);
      WrongPatchFails(original, PrintDiff(file, before, after, prefix, suffix), diffPath, updated);
    } else {
      var added :| added in after[prefix..|after| - suffix] && StartsWith(added, "++ ");
      SwallowedLineFails(file, original, updated, prefix, suffix, diffPath, added);
    }
  }

  lemma WrongPatchFails(original: string, patch: string, diffPath: string -> string, updated: string)
    requires var files := ParseUnifiedDiff(patch, diffPath);
             |files| == 1 ==> files[0].isDeleted || ApplyHunks(original, files[0].hunks) != Applied(updated)
    ensures PatchProposal(original, patch, diffPath) != Patched(updated)
  {
  }

  lemma SwallowedLineFails(file: string, original: string, updated: string, prefix: nat, suffix: nat,
                           diffPath: string -> string, added: string)
    requires '\r' !in original && '\r' !in updated && PlainName(file)
    requires IsSpan(DiffLines(original), DiffLines(updated), prefix, suffix)
    requires var before, after := DiffLines(original), DiffLines(updated);
             && (forall line :: line in before[prefix..|before| - suffix] ==> !StartsWith(line, "-- "))
             && added in after[prefix..|after| - suffix] && StartsWith(added, "++ ")
    ensures PatchProposal(original, PrintDiff(file, DiffLines(original), DiffLines(updated), prefix, suffix), diffPath)
         != Patched(updated)
  {
    var before, after := DiffLines(original), DiffLines(updated);
    DiffLinesArePlain(original);
    DiffLinesArePlain(updated);
    var kept := SwallowedLineIsMissing(file, before, after, prefix, suffix, diffPath, added);
    ShortHunkGivesAnotherText(original, updated, prefix, suffix, kept);
    WrongPatchFails(original, PrintDiff(file, before, after, prefix, suffix), diffPath, updated);
  }

  lemma SwallowedLineIsMissing(file: string, before: seq<string>, after: seq<string>, prefix: nat, suffix: nat,
                               diffPath: string -> string, added: string) returns (kept: seq<HunkLine>)
    requires prefix + suffix <= |before| && prefix + suffix <= |after|
    requires AllPlain(before) && AllPlain(after) && PlainName(file)
    requires forall line :: line in before[prefix..|before| - suffix] ==> !StartsWith(line, "-- ")
    requires added in after[prefix..|after| - suffix] && StartsWith(added, "++ ")
    ensures Shortens(kept, Body(before, after, prefix, suffix))
    ensures var files := ParseUnifiedDiff(PrintDiff(file, before, after, prefix, suffix), diffPath);
            && |files| == 1
            && (files[0].isDeleted
                || files[0].hunks == [Hunk(Some(WindowOf(|before|, prefix, suffix).start + 1), kept)])
  {
    var body := Body(before, after, prefix, suffix);
    kept := Kept(body);
    BodyOpensNoPatch(before, after, prefix, suffix);
    AddedLinesAreSwallowed(file, before, after, prefix, suffix, diffPath);
    AddedLineIsInBody(before, after, prefix, suffix, added);
    SwallowedLineShortens(body, HunkLine(Add, added));
  }

  lemma SwallowedLineShortens(body: seq<HunkLine>, swallowed: HunkLine)
    requires swallowed in body && IsSwallowed(swallowed)
    ensures Shortens(Kept(body), body)
  {
    KeptSides(body);
  }

  lemma BodyOpensNoPatch(before: seq<string>, after: seq<string>, prefix: nat, suffix: nat)
    requires prefix + suffix <= |before| && prefix + suffix <= |after|
    requires AllPlain(before) && AllPlain(after)
    requires forall line :: line in before[prefix..|before| - suffix] ==> !StartsWith(line, "-- ")
    ensures forall line :: line in Body(before, after, prefix, suffix) ==> OpensNoPatch(line)
  {
    BodyIsPlain(before, after, prefix, suffix);
    forall line | line in Body(before, after, prefix, suffix) && line.kind == Remove
      ensures line.value in before[prefix..|before| - suffix]
    {
      var w := WindowOf(|before|, prefix, suffix);
      assert line in Kinded(Remove, before[w.changed..w.changedEnd]);
    }
  }

  /**
   For texts without carriage returns, the printed diff patches the text it was printed for into the other
   one exactly when the texts differ, agree in how they end, and no changed line looks like a header line.
   */
  lemma DiffPatchesExactlyWhen(file: string, original: string, updated: string, prefix: nat, suffix: nat,
                               diffPath: string -> string)
    requires '\r' !in original && '\r' !in updated && PlainName(file)
    requires IsSpan(DiffLines(ToLf(original)), DiffLines(ToLf(updated)), prefix, suffix)
    ensures var before, after := DiffLines(ToLf(original)), DiffLines(ToLf(updated));
            (PatchProposal(original, PrintDiff(file, before, after, prefix, suffix), diffPath) == Patched(updated))
              <==> original != updated && RoundTrips(original, updated) && Unmistakable(before, after, prefix, suffix)
  {
    LfTextIsItsOwnLf(original);
    LfTextIsItsOwnLf(updated);
    LfDiffPatchesExactlyWhen(file, original, updated, prefix, suffix, diffPath);
  }

  lemma LfDiffPatchesExactlyWhen(file: string, original: string, updated: string, prefix: nat, suffix: nat,
                                 diffPath: string -> string)
    requires '\r' !in original && '\r' !in updated && PlainName(file)
    requires IsSpan(DiffLines(original), DiffLines(updated), prefix, suffix)
    ensures var before, after := DiffLines(original), DiffLines(updated);
            (PatchProposal(original, PrintDiff(file, before, after, prefix, suffix), diffPath) == Patched(updated))
              <==> original != updated && RoundTrips(original, updated) && Unmistakable(before, after, prefix, suffix)
  {
    if Unmistakable(DiffLines(original), DiffLines(updated), prefix, suffix) {
      UnmistakableDiffApplies(file, original, updated, prefix, suffix, diffPath);
      RightPatchPatches(original, PrintDiff(file, DiffLines(original), DiffLines(updated), prefix, suffix), diffPath,
                        updated);
    } else {
      MistakenDiffFails(file, original, updated, prefix, suffix, diffPath);
    }
  }

  lemma RightPatchPatches(original: string, patch: string, diffPath: string -> string, updated: string)
    requires var files := ParseUnifiedDiff(patch, diffPath);
             |files| == 1 && |files[0].hunks| == 1 && !files[0].isNewFile && !files[0].isDeleted
    ensures var files := ParseUnifiedDiff(patch, diffPath);
            (PatchProposal(original, patch, diffPath) == Patched(updated)) <==>
              original != updated && ApplyHunks(original, files[0].hunks) == Applied(updated)
  {
  }
}
