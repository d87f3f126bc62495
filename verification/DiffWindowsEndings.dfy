/** Diffs of texts with Windows line endings: patching them gives what patching the Unix texts gives. */
module DiffWindowsEndings {
  import opened Options
  import opened TextLines
  import opened LineSpans
  import opened PatchApply
  import opened UnifiedDiff
  import opened DiffRoundTrip
  import opened DiffMistakenLines

  // ----- characters that stay out -----

  predicate Without(c: char, lines: seq<string>) {
    forall line :: line in lines ==> c !in line
  }

  predicate HunkWithout(c: char, hunk: Hunk) {
    forall line :: line in hunk.lines ==> c !in line.value
  }

  predicate PatchWithout(c: char, patch: FilePatch) {
    forall hunk :: hunk in patch.hunks ==> HunkWithout(c, hunk)
  }

  predicate StateWithout(c: char, s: ParseState) {
    && (forall patch :: patch in s.files ==> PatchWithout(c, patch))
    && (s.current.Some? ==> PatchWithout(c, s.current.value))
    && (s.hunk.Some? ==> HunkWithout(c, s.hunk.value))
  }

  lemma FinishKeepsOut(c: char, s: ParseState)
    requires StateWithout(c, s)
    ensures StateWithout(c, FinishPatch(s))
  {
  }

  lemma BodyLineKeepsOut(c: char, s: ParseState, line: string)
    requires StateWithout(c, s) && c !in line
    ensures StateWithout(c, ParseBodyLine(s, line))
  {
  }

  lemma LineKeepsOut(c: char, s: ParseState, codex: bool, diffPath: string -> string, line: string)
    requires StateWithout(c, s) && c !in line
    ensures StateWithout(c, ParseLine(s, codex, diffPath, line))
  {
    FinishKeepsOut(c, s);
    BodyLineKeepsOut(c, s, line);
  }

  lemma {:induction false} LinesKeepOut(c: char, s: ParseState, codex: bool, diffPath: string -> string,
                                        lines: seq<string>, n: nat)
    requires StateWithout(c, s) && Without(c, lines) && n <= |lines|
    ensures StateWithout(c, ParseLines(LineParser(codex, diffPath), s, lines, n))
    decreases |lines| - n
  {
    if n < |lines| {
      assert lines[n] in lines;
      LineKeepsOut(c, s, codex, diffPath, StripCr(lines[n]));
      LinesKeepOut(c, ParseLine(s, codex, diffPath, StripCr(lines[n])), codex, diffPath, lines, n + 1);
    }
  }

  /** A character that no line of a patch holds is in no hunk of it. */
  lemma ParsedWithout(c: char, patch: string, diffPath: string -> string)
    requires Without(c, PatchTextLines(patch))
    ensures forall file :: file in ParseUnifiedDiff(patch, diffPath) ==> PatchWithout(c, file)
  {
    var lines, start := PatchTextLines(patch), ParseState([], None, None);
    LinesKeepOut(c, start, BEGIN_PATCH in lines, diffPath, lines, 0);
    FinishKeepsOut(c, ParseLines(LineParser(BEGIN_PATCH in lines, diffPath), start, lines, 0));
  }

  lemma {:induction false} WalkKeepsOut(c: char, lines: seq<string>, index: nat, hunk: seq<HunkLine>)
    requires Without(c, lines) && forall line :: line in hunk ==> c !in line.value
    ensures Without(c, Walk(lines, index, hunk))
    decreases |hunk|
  {
    if hunk != [] {
      assert hunk[0] in hunk;
      match hunk[0].kind
      case Context => WalkKeepsOut(c, lines, index + 1, hunk[1..]);
      case Remove => WalkKeepsOut(c, RemoveAt(lines, index), index, hunk[1..]);
      case Add => WalkKeepsOut(c, InsertAt(lines, index, hunk[0].value), index + 1, hunk[1..]);
    }
  }

  lemma {:induction false} ApplyKeepsOut(c: char, p: Progress, hunks: seq<Hunk>, n: nat)
    requires Without(c, p.lines) && n <= |hunks| && forall hunk :: hunk in hunks ==> HunkWithout(c, hunk)
    ensures Without(c, ApplyFrom(p, hunks, n).lines)
    decreases |hunks| - n
  {
    if n < |hunks| {
      assert hunks[n] in hunks;
      ApplyOneKeepsOut(c, p, hunks[n], n);
      ApplyKeepsOut(c, ApplyOne(p, hunks[n], n), hunks, n + 1);
    }
  }

  lemma ApplyOneKeepsOut(c: char, p: Progress, hunk: Hunk, n: nat)
    requires Without(c, p.lines) && HunkWithout(c, hunk)
    ensures Without(c, ApplyOne(p, hunk, n).lines)
  {
    match Locate(p.lines, OldSide(hunk.lines), Preferred(p.lines, hunk, p.offset))
    case At(position) => WalkKeepsOut(c, p.lines, position, hunk.lines);
    case _ =>
  }

  // ----- Windows line endings -----

  lemma {:induction false} ToCrlfOfTwo(a: string, b: string)
    ensures ToCrlf(a + b) == ToCrlf(a) + ToCrlf(b)
  {
    if a == "" {
      assert a + b == b;
    } else {
      assert (a + b)[1..] == a[1..] + b;
      ToCrlfOfTwo(a[1..], b);
    }
  }

  lemma {:induction false} ToCrlfOfLine(line: string)
    requires '\n' !in line
    ensures ToCrlf(line) == line
  {
    if line != "" {
      ToCrlfOfLine(line[1..]);
    }
  }

  lemma {:induction false} ToCrlfOfJoined(lines: seq<string>)
    requires Without('\n', lines)
    ensures ToCrlf(Join(lines, "\n")) == Join(lines, "\r\n")
  {
    if lines != [] {
      ToCrlfOfLine(lines[0]);
      if 1 < |lines| {
        ToCrlfOfJoined(lines[1..]);
        ToCrlfOfTwo(lines[0], "\n" + Join(lines[1..], "\n"));
        ToCrlfOfTwo("\n", Join(lines[1..], "\n"));
        assert ToCrlf("\n") == "\r\n";
        assert lines[0] + "\n" + Join(lines[1..], "\n") == lines[0] + ("\n" + Join(lines[1..], "\n"));
      }
    }
  }

  /** Normalising undoes it. */
  lemma {:induction false} ToLfOfToCrlf(text: string)
    requires '\r' !in text
    ensures ToLf(ToCrlf(text)) == text
  {
    if text != "" {
      ToLfOfToCrlf(text[1..]);
      var rest := ToCrlf(text[1..]);
      if text[0] == '\n' {
        assert ("\r\n" + rest)[2..] == rest;
      } else {
        assert ([text[0]] + rest)[1..] == rest;
      }
    }
  }

  /** The pieces between the newlines of a text with Windows line endings. */
  function CrlfPieces(lines: seq<string>): seq<string> {
    seq(|lines|, i requires 0 <= i < |lines| => if i < |lines| - 1 then lines[i] + "\r" else lines[i])
  }

  lemma {:induction false} JoinedPieces(lines: seq<string>)
    requires lines != []
    ensures Join(lines, "\r\n") == Join(CrlfPieces(lines), "\n")
  {
    if 1 < |lines| {
      JoinedPieces(lines[1..]);
      assert CrlfPieces(lines)[1..] == CrlfPieces(lines[1..]);
      assert lines[0] + "\r\n" == (lines[0] + "\r") + "\n";
    }
  }

  /** A text is split into the same lines with Windows line endings as without. */
  lemma SplitLinesOfCrlf(text: string)
    requires '\r' !in text
    ensures SplitLines(ToCrlf(text)) == Split(text)
  {
    var lines := Split(text);
    JoinSplit(text);
    PiecesArePlain(text);
    ToCrlfOfJoined(lines);
    JoinedPieces(lines);
    var pieces := CrlfPieces(lines);
    forall i | 0 <= i < |pieces|
      ensures '\n' !in pieces[i] && StripCr(pieces[i]) == lines[i]
    {
      assert lines[i] in lines;
    }
    SplitJoin(pieces);
  }

  lemma EndsAlike(text: string)
    requires text != ""
    ensures var front := text[..|text| - 1];
            ToCrlf(text) == ToCrlf(front) + (if text[|text| - 1] == '\n' then "\r\n" else [text[|text| - 1]])
  {
    var front, last := text[..|text| - 1], [text[|text| - 1]];
    assert text == front + last;
    ToCrlfOfTwo(front, last);
    assert ToCrlf(last[1..]) == "";
  }

  lemma ContainsCrlf(text: string)
    requires '\n' in text
    ensures Contains(ToCrlf(text), "\r\n")
  {
    var i :| 0 <= i < |text| && text[i] == '\n';
    var front, back := text[..i], text[i..];
    assert text == front + back;
    ToCrlfOfTwo(front, back);
    assert ToCrlf(back) == "\r\n" + ToCrlf(back[1..]);
    assert ToCrlf(text)[|ToCrlf(front)|..] == ToCrlf(back);
  }

  /** What is left of a text to patch without its trailing newline. */
  predicate IsBody(text: string, ending: string, body: string) {
    text == if EndsWithNewline(text) then body + ending else body
  }

  lemma SplitPatchLinesOfBody(text: string, body: string)
    requires IsBody(text, if Contains(text, "\r\n") then "\r\n" else "\n", body)
    ensures SplitPatchLines(text) == PatchLines(if body == "" then [] else SplitLines(body),
                                                if Contains(text, "\r\n") then "\r\n" else "\n",
                                                EndsWithNewline(text))
  {
    var ending := if Contains(text, "\r\n") then "\r\n" else "\n";
    if EndsWithNewline(text) {
      assert text[..|text| - |ending|] == body;
    }
  }

  lemma BodyAlike(text: string) returns (body: string)
    requires text != ""
    ensures EndsWithNewline(ToCrlf(text)) == EndsWithNewline(text)
    ensures '\r' !in text ==> '\r' !in body
    ensures IsBody(text, "\n", body) && IsBody(ToCrlf(text), "\r\n", ToCrlf(body))
  {
    var front := text[..|text| - 1];
    EndsAlike(text);
    assert text == front + [text[|text| - 1]];
    body := if EndsWithNewline(text) then front else text;
  }

  lemma BodyLinesAlike(body: string)
    requires '\r' !in body
    ensures SplitLines(ToCrlf(body)) == SplitLines(body) && (ToCrlf(body) == "" <==> body == "")
  {
    SplitLinesOfCrlf(body);
    SplitLinesOfLf(body);
  }

  /** The lines to patch are the same, only the ending to join them with differs. */
  lemma SplitPatchLinesOfCrlf(text: string)
    requires '\r' !in text && '\n' in text
    ensures SplitPatchLines(ToCrlf(text)) == SplitPatchLines(text).(lineEnding := "\r\n")
    ensures ToCrlf(text) != ""
  {
    NoCrlfInLf(text);
    ContainsCrlf(text);
    var body := BodyAlike(text);
    SplitPatchLinesOfBody(text, body);
    SplitPatchLinesOfBody(ToCrlf(text), ToCrlf(body));
    BodyLinesAlike(body);
  }

  // ----- patching -----

  lemma JoinedAlike(text: string, lines: seq<string>)
    requires '\r' !in text && '\n' in text && Without('\n', lines)
    ensures JoinPatchLines(ToCrlf(text), SplitPatchLines(ToCrlf(text)), lines)
         == ToCrlf(JoinPatchLines(text, SplitPatchLines(text), lines))
  {
    SplitPatchLinesOfCrlf(text);
    NoCrlfInLf(text);
    ToCrlfOfJoined(lines);
    var joined := Join(lines, "\n");
    ToCrlfOfTwo(joined, "\n");
    assert ToCrlf("\n") == "\r\n";
    assert joined != "" <==> ToCrlf(joined) != "";
  }

  function Crlf(outcome: ProposalOutcome): ProposalOutcome {
    match outcome
    case Patched(text) => Patched(ToCrlf(text))
    case _ => outcome
  }

  lemma PatchLinesHoldNoNewline(text: string)
    requires '\r' !in text
    ensures Without('\n', SplitPatchLines(text).lines) && Without('\r', SplitPatchLines(text).lines)
  {
    PatchLinesAreDiffLines(text);
    DiffLinesArePlain(text);
  }

  lemma HunksApplyAlike(text: string, hunks: seq<Hunk>)
    requires '\r' !in text && '\n' in text && forall hunk :: hunk in hunks ==> HunkWithout('\n', hunk)
    ensures ApplyHunks(ToCrlf(text), hunks) ==
              match ApplyHunks(text, hunks)
              case Rejected(issues) => Rejected(issues)
              case Applied(t) => Applied(ToCrlf(t))
  {
    var lines := SplitPatchLines(text).lines;
    SplitPatchLinesOfCrlf(text);
    PatchLinesHoldNoNewline(text);
    ApplyKeepsOut('\n', Progress(lines, 0, []), hunks, 0);
    JoinedAlike(text, ApplyFrom(Progress(lines, 0, []), hunks, 0).lines);
  }

  lemma PatchTextHoldsNoNewline(patch: string)
    ensures Without('\n', PatchTextLines(patch))
  {
    var pieces := Split(patch);
    forall line | line in SplitLines(patch)
      ensures '\n' !in line
    {
      var i :| 0 <= i < |pieces| && line == SplitLines(patch)[i];
      assert pieces[i] in pieces;
    }
  }

  lemma ToCrlfIsInjective(a: string, b: string)
    requires '\r' !in a && '\r' !in b && ToCrlf(a) == ToCrlf(b)
    ensures a == b
  {
    ToLfOfToCrlf(a);
    ToLfOfToCrlf(b);
  }

  /** A patch without carriage returns leaves a text without carriage returns. */
  lemma PatchedHoldsNoCr(text: string, hunks: seq<Hunk>)
    requires '\r' !in text && forall hunk :: hunk in hunks ==> HunkWithout('\r', hunk)
    ensures ApplyHunks(text, hunks).Applied? ==> '\r' !in ApplyHunks(text, hunks).text
  {
    var lines := SplitPatchLines(text).lines;
    PatchLinesHoldNoNewline(text);
    NoCrlfInLf(text);
    ApplyKeepsOut('\r', Progress(lines, 0, []), hunks, 0);
    JoinedHoldsNoCr(ApplyFrom(Progress(lines, 0, []), hunks, 0).lines);
  }

  lemma {:induction false} JoinedHoldsNoCr(lines: seq<string>)
    requires Without('\r', lines)
    ensures '\r' !in Join(lines, "\n")
  {
    if lines != [] {
      assert lines[0] in lines;
      if 1 < |lines| {
        JoinedHoldsNoCr(lines[1..]);
      }
    }
  }

  /** Any patch does to a text with Windows line endings what it does to the same text with Unix ones. */
  lemma PatchedAlike(text: string, patch: string, diffPath: string -> string)
    requires '\r' !in text && '\n' in text && Without('\r', PatchTextLines(patch))
    ensures PatchProposal(ToCrlf(text), patch, diffPath) == Crlf(PatchProposal(text, patch, diffPath))
  {
    var files := ParseUnifiedDiff(patch, diffPath);
    PatchTextHoldsNoNewline(patch);
    ParsedWithout('\n', patch, diffPath);
    ParsedWithout('\r', patch, diffPath);
    if |files| == 1 {
      assert files[0] in files;
      HunksApplyAlike(text, files[0].hunks);
      PatchedHoldsNoCr(text, files[0].hunks);
      var outcome := ApplyHunks(text, files[0].hunks);
      if outcome.Applied? && ToCrlf(outcome.text) == ToCrlf(text) {
        ToCrlfIsInjective(outcome.text, text);
      }
    }
  }

  // ----- the round trip -----

  lemma PrintedDiffHoldsNoCr(file: string, before: seq<string>, after: seq<string>, prefix: nat, suffix: nat)
    requires prefix + suffix <= |before| && prefix + suffix <= |after|
    requires AllPlain(before) && AllPlain(after) && PlainName(file)
    ensures Without('\r', PatchTextLines(PrintDiff(file, before, after, prefix, suffix)))
  {
    BodyIsPlain(before, after, prefix, suffix);
    PrintedLinesArePlain(file, before, after, prefix, suffix);
    PatchTextLinesOfPrinted(file, before, after, prefix, suffix);
  }

  /**
   For texts all of whose newlines have a carriage return, and without any other, the printed diff patches one
   into the other exactly when it does so for the Unix texts and the first one shows its line ending, if the
   second one has lines to end.
   */
  lemma CrlfDiffPatchesExactlyWhen(file: string, lf: string, lfUpdated: string, prefix: nat, suffix: nat,
                                   diffPath: string -> string)
    requires '\r' !in lf && '\r' !in lfUpdated && PlainName(file)
    requires IsSpan(DiffLines(ToLf(ToCrlf(lf))), DiffLines(ToLf(ToCrlf(lfUpdated))), prefix, suffix)
    ensures var before, after := DiffLines(ToLf(ToCrlf(lf))), DiffLines(ToLf(ToCrlf(lfUpdated)));
            var diff := PrintDiff(file, before, after, prefix, suffix);
            (PatchProposal(ToCrlf(lf), diff, diffPath) == Patched(ToCrlf(lfUpdated)))
              <==> lf != lfUpdated && RoundTrips(lf, lfUpdated) && ('\n' in lf || '\n' !in lfUpdated)
                   && Unmistakable(before, after, prefix, suffix)
  {
    ToLfOfToCrlf(lf);
    ToLfOfToCrlf(lfUpdated);
    LfTextIsItsOwnLf(lf);
    LfTextIsItsOwnLf(lfUpdated);
    var before, after := DiffLines(lf), DiffLines(lfUpdated);
    var diff := PrintDiff(file, before, after, prefix, suffix);
    DiffPatchesExactlyWhen(file, lf, lfUpdated, prefix, suffix, diffPath);
    DiffLinesArePlain(lf);
    DiffLinesArePlain(lfUpdated);
    PrintedDiffHoldsNoCr(file, before, after, prefix, suffix);
    if '\n' in lf {
      PatchedAlike(lf, diff, diffPath);
      PatchedComparesAlike(lf, lfUpdated, diff, diffPath);
    } else {
      ToCrlfOfLine(lf);
      if '\n' in lfUpdated {
        PatchedShowsNoCr(lf, lfUpdated, diff, diffPath);
      } else {
        ToCrlfOfLine(lfUpdated);
      }
    }
  }

  lemma PatchedComparesAlike(lf: string, lfUpdated: string, diff: string, diffPath: string -> string)
    requires '\r' !in lf && '\r' !in lfUpdated && Without('\r', PatchTextLines(diff))
    ensures (Crlf(PatchProposal(lf, diff, diffPath)) == Patched(ToCrlf(lfUpdated)))
              <==> PatchProposal(lf, diff, diffPath) == Patched(lfUpdated)
  {
    ResultHoldsNoCr(lf, diff, diffPath);
    var outcome := PatchProposal(lf, diff, diffPath);
    if outcome.Patched? && ToCrlf(outcome.text) == ToCrlf(lfUpdated) {
      ToCrlfIsInjective(outcome.text, lfUpdated);
    }
  }

  lemma ResultHoldsNoCr(lf: string, diff: string, diffPath: string -> string)
    requires '\r' !in lf && Without('\r', PatchTextLines(diff))
    ensures PatchProposal(lf, diff, diffPath).Patched? ==> '\r' !in PatchProposal(lf, diff, diffPath).text
  {
    var files := ParseUnifiedDiff(diff, diffPath);
    ParsedWithout('\r', diff, diffPath);
    if |files| == 1 {
      assert files[0] in files;
      PatchedHoldsNoCr(lf, files[0].hunks);
    }
  }

  lemma PatchedShowsNoCr(lf: string, lfUpdated: string, diff: string, diffPath: string -> string)
    requires '\r' !in lf && '\n' in lfUpdated && Without('\r', PatchTextLines(diff))
    ensures PatchProposal(lf, diff, diffPath) != Patched(ToCrlf(lfUpdated))
  {
    ResultHoldsNoCr(lf, diff, diffPath);
    ContainsCrlf(lfUpdated);
    var i :| 0 <= i <= |ToCrlf(lfUpdated)| && "\r\n" <= ToCrlf(lfUpdated)[i..];
    assert ToCrlf(lfUpdated)[i..][0] == "\r\n"[0];
    assert '\r' in ToCrlf(lfUpdated);
  }
}
