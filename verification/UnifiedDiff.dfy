/** Printing the diff of a whole file and parsing a unified diff. */
module UnifiedDiff {
  import opened Options
  import opened TextLines
  import opened LineSpans
  import opened PatchApply

  const CONTEXT_LINES: nat := 3

  /** The header path as parsed is a parameter: path clean-up plays no part in applying a patch. */
  datatype FilePatch = FilePatch(path: string, hunks: seq<Hunk>, isNewFile: bool, isDeleted: bool)

  // ----- numbers -----

  function Digit(n: nat): char
    requires n < 10
  {
    "0123456789"[n]
  }

  predicate IsDigit(c: char) {
    '0' <= c <= '9'
  }

  function DigitValue(c: char): nat
    requires IsDigit(c)
  {
    c as int - '0' as int
  }

  function Decimal(n: nat): (text: string)
    ensures text != "" && forall i :: 0 <= i < |text| ==> IsDigit(text[i])
  {
    if n < 10 then [Digit(n)] else Decimal(n / 10) + [Digit(n % 10)]
  }

  /** The longest run of digits at the start of a text. */
  function DigitRun(text: string): (n: nat)
    ensures n <= |text|
    ensures forall i :: 0 <= i < n ==> IsDigit(text[i])
  {
    if text != "" && IsDigit(text[0]) then 1 + DigitRun(text[1..]) else 0
  }

  function Number(digits: string): nat
    requires forall i :: 0 <= i < |digits| ==> IsDigit(digits[i])
  {
    if digits == "" then 0
    else 10 * Number(digits[..|digits| - 1]) + DigitValue(digits[|digits| - 1])
  }

  lemma {:induction false} NumberOfDecimal(n: nat)
    ensures Number(Decimal(n)) == n
  {
    if 10 <= n {
      NumberOfDecimal(n / 10);
      var text := Decimal(n);
      assert text[..|text| - 1] == Decimal(n / 10);
    }
  }

  lemma {:induction false} RunOfDigits(digits: string, rest: string)
    requires forall i :: 0 <= i < |digits| ==> IsDigit(digits[i])
    requires rest != "" && !IsDigit(rest[0])
    ensures DigitRun(digits + rest) == |digits|
  {
    if digits == "" {
      assert digits + rest == rest;
    } else {
      assert (digits + rest)[1..] == digits[1..] + rest;
      RunOfDigits(digits[1..], rest);
    }
  }

  // ----- printing -----

  /** The lines a text is diffed by: a final newline ends the last line instead of starting another. */
  function DiffLines(text: string): seq<string> {
    if text == "" then []
    else if EndsWithNewline(text) then Split(text[..|text| - 1])
    else Split(text)
  }

  function Prefixed(prefix: char, lines: seq<string>): seq<string> {
    seq(|lines|, i requires 0 <= i < |lines| => [prefix] + lines[i])
  }

  /** The four line ranges of the single hunk around a changed span. */
  datatype Window = Window(start: nat, changed: nat, changedEnd: nat, end: nat)

  function HunkHeader(b: Window, a: Window): string
    requires b.start <= b.end && a.start <= a.end
  {
    "@@ -" + Decimal(b.start + 1) + HeaderRest(b.end - b.start, a.start, a.end - a.start)
  }

  function HeaderRest(beforeCount: nat, afterStart: nat, afterCount: nat): string {
    "," + (Decimal(beforeCount) + " +" + Decimal(afterStart + 1) + "," + Decimal(afterCount) + " @@")
  }

  function WindowOf(lines: nat, prefix: nat, suffix: nat): (w: Window)
    requires prefix + suffix <= lines
    ensures w.start <= w.changed <= w.changedEnd <= w.end <= lines
  {
    Window(Max(0, prefix - CONTEXT_LINES), prefix, Max(prefix, lines - suffix),
           Min(lines, lines - suffix + CONTEXT_LINES))
  }

  /** The body of the hunk: leading context, removed lines, added lines, trailing context. */
  function Body(before: seq<string>, after: seq<string>, prefix: nat, suffix: nat): seq<HunkLine>
    requires prefix + suffix <= |before| && prefix + suffix <= |after|
  {
    var b, a := WindowOf(|before|, prefix, suffix), WindowOf(|after|, prefix, suffix);
    Kinded(Context, before[b.start..b.changed]) + Kinded(Remove, before[b.changed..b.changedEnd])
    + Kinded(Add, after[a.changed..a.changedEnd]) + Kinded(Context, before[b.changedEnd..b.end])
  }

  function Kinded(kind: LineKind, lines: seq<string>): seq<HunkLine> {
    seq(|lines|, i requires 0 <= i < |lines| => HunkLine(kind, lines[i]))
  }

  function PrintLine(line: HunkLine): string {
    (match line.kind case Context => " " case Add => "+" case Remove => "-") + line.value
  }

  function PrintLines(lines: seq<HunkLine>): seq<string> {
    seq(|lines|, i requires 0 <= i < |lines| => PrintLine(lines[i]))
  }

  lemma PrintBody(before: seq<string>, after: seq<string>, prefix: nat, suffix: nat)
    requires prefix + suffix <= |before| && prefix + suffix <= |after|
    ensures var b, a := WindowOf(|before|, prefix, suffix), WindowOf(|after|, prefix, suffix);
            PrintLines(Body(before, after, prefix, suffix)) ==
              Prefixed(' ', before[b.start..b.changed]) + Prefixed('-', before[b.changed..b.changedEnd])
              + Prefixed('+', after[a.changed..a.changedEnd]) + Prefixed(' ', before[b.changedEnd..b.end])
  {
    var b, a := WindowOf(|before|, prefix, suffix), WindowOf(|after|, prefix, suffix);
    PrintFour(before[b.start..b.changed], before[b.changed..b.changedEnd],
              after[a.changed..a.changedEnd], before[b.changedEnd..b.end]);
  }

  lemma PrintFour(leading: seq<string>, removed: seq<string>, added: seq<string>, trailing: seq<string>)
    ensures PrintLines(Kinded(Context, leading) + Kinded(Remove, removed)
                       + Kinded(Add, added) + Kinded(Context, trailing))
         == Prefixed(' ', leading) + Prefixed('-', removed) + Prefixed('+', added) + Prefixed(' ', trailing)
  {
    PrintAppend(Kinded(Context, leading) + Kinded(Remove, removed) + Kinded(Add, added), Kinded(Context, trailing));
    PrintAppend(Kinded(Context, leading) + Kinded(Remove, removed), Kinded(Add, added));
    PrintAppend(Kinded(Context, leading), Kinded(Remove, removed));
    PrintKinded(Context, ' ', leading);
    PrintKinded(Remove, '-', removed);
    PrintKinded(Add, '+', added);
    PrintKinded(Context, ' ', trailing);
  }

  lemma PrintAppend(front: seq<HunkLine>, back: seq<HunkLine>)
    ensures PrintLines(front + back) == PrintLines(front) + PrintLines(back)
  {
  }

  lemma PrintKinded(kind: LineKind, mark: char, lines: seq<string>)
    requires mark == (match kind case Context => ' ' case Add => '+' case Remove => '-')
    ensures PrintLines(Kinded(kind, lines)) == Prefixed(mark, lines)
  {
  }

  function PrintDiff(file: string, before: seq<string>, after: seq<string>, prefix: nat, suffix: nat): string
    requires prefix + suffix <= |before| && prefix + suffix <= |after|
  {
    var b, a := WindowOf(|before|, prefix, suffix), WindowOf(|after|, prefix, suffix);
    Join(["--- a/" + file, "+++ b/" + file, HunkHeader(b, a)]
         + PrintLines(Body(before, after, prefix, suffix)) + [""], "\n")
  }

  /** `wholeFileDiff` before it is cut to the byte limit of a result. */
  method WholeFileDiff(file: string, original: string, updated: string) returns (diff: string)
    ensures exists prefix: nat, suffix: nat ::
              && IsSpan(DiffLines(ToLf(original)), DiffLines(ToLf(updated)), prefix, suffix)
              && diff == PrintDiff(file, DiffLines(ToLf(original)), DiffLines(ToLf(updated)), prefix, suffix)
  {
    var before, after := DiffLines(ToLf(original)), DiffLines(ToLf(updated));
    var prefix := CommonPrefix(before, after);
    var suffix := CommonSuffix(before, after, Min(|before|, |after|) - prefix);
    assert IsSpan(before, after, prefix, suffix);
    var b, a := WindowOf(|before|, prefix, suffix), WindowOf(|after|, prefix, suffix);
    var leading := Prefixed(' ', before[b.start..b.changed]);
    var removed := Prefixed('-', before[b.changed..b.changedEnd]);
    var added := Prefixed('+', after[a.changed..a.changedEnd]);
    var trailing := Prefixed(' ', before[b.changedEnd..b.end]);
    PrintBody(before, after, prefix, suffix);
    diff := Join(["--- a/" + file, "+++ b/" + file, HunkHeader(b, a)]
                 + (leading + removed + added + trailing) + [""], "\n");
  }

  // ----- parsing -----

  predicate StartsWith(text: string, prefix: string) {
    prefix <= text
  }

  /** `/^@@\s+-(\d+)/`, at least one. */
  function HunkOldStart(header: string): Option<nat> {
    if !StartsWith(header, "@@") then None
    else
      var rest := header[2..];
      var tail := rest[SpaceRun(rest)..];
      if SpaceRun(rest) == 0 || tail == "" || tail[0] != '-' || DigitRun(tail[1..]) == 0 then None
      else Some(Max(1, Number(tail[1..][..DigitRun(tail[1..])])))
  }

  datatype ParseState = ParseState(files: seq<FilePatch>, current: Option<FilePatch>, hunk: Option<Hunk>)

  function FinishPatch(s: ParseState): ParseState {
    match s.current
    case None => ParseState(s.files, None, None)
    case Some(current) =>
      var closed := if s.hunk.Some? then current.(hunks := current.hunks + [s.hunk.value]) else current;
      ParseState(s.files + [closed], None, None)
  }

  const BEGIN_PATCH := "*** Begin Patch"
  const END_PATCH := "*** End Patch"
  const ADD_FILE := "*** Add File: "
  const UPDATE_FILE := "*** Update File: "
  const DELETE_FILE := "*** Delete File: "

  predicate IsCodexHeader(line: string) {
    StartsWith(line, ADD_FILE) || StartsWith(line, UPDATE_FILE) || StartsWith(line, DELETE_FILE)
  }

  /** A hunk header, or a line of the current hunk. */
  function ParseBodyLine(s: ParseState, line: string): ParseState {
    if StartsWith(line, "@@") then
      var closed := if s.current.Some? && s.hunk.Some?
                    then Some(s.current.value.(hunks := s.current.value.hunks + [s.hunk.value])) else s.current;
      ParseState(s.files, closed, Some(Hunk(HunkOldStart(line), [])))
    else if s.current.None? || s.current.value.isDeleted then s
    else
      var hunk := if s.hunk.Some? then s.hunk.value else Hunk(None, []);
      s.(hunk := Some(
        if StartsWith(line, "+") then hunk.(lines := hunk.lines + [HunkLine(Add, line[1..])])
        else if StartsWith(line, "-") then hunk.(lines := hunk.lines + [HunkLine(Remove, line[1..])])
        else if StartsWith(line, " ") then hunk.(lines := hunk.lines + [HunkLine(Context, line[1..])])
        else if line == "" then hunk.(lines := hunk.lines + [HunkLine(Context, "")])
        else hunk))
  }

  function ParseLine(s: ParseState, codex: bool, diffPath: string -> string, line: string): ParseState {
    if codex then ParseCodexLine(s, diffPath, line) else ParseDiffLine(s, diffPath, line)
  }

  function ParseCodexLine(s: ParseState, diffPath: string -> string, line: string): ParseState {
    if line == BEGIN_PATCH then s
    else if line == END_PATCH then FinishPatch(s)
    else if IsCodexHeader(line) then
      var isNew, isDeleted := StartsWith(line, ADD_FILE), StartsWith(line, DELETE_FILE);
      var path := diffPath(if isNew then line[|ADD_FILE|..] else line[|UPDATE_FILE|..]);
      FinishPatch(s).(current := Some(FilePatch(path, [], isNew, isDeleted)),
                      hunk := if isNew then Some(Hunk(Some(1), [])) else None)
    else ParseBodyLine(s, line)
  }

  function ParseDiffLine(s: ParseState, diffPath: string -> string, line: string): ParseState {
    if StartsWith(line, "--- ") then
      FinishPatch(s).(current := Some(FilePatch(diffPath(line[4..]), [], Contains(line, "/dev/null"), false)))
    else if StartsWith(line, "+++ ") then
      match s.current
      case None => s
      case Some(current) =>
        var path := diffPath(line[4..]);
        s.(current := Some(current.(path := if path != "" then path else current.path,
                                    isDeleted := current.isDeleted || Contains(line, "/dev/null"))))
    else ParseBodyLine(s, line)
  }

  function LineParser(codex: bool, diffPath: string -> string): (ParseState, string) -> ParseState {
    (s: ParseState, line: string) => ParseLine(s, codex, diffPath, StripCr(line))
  }

  /** The lines from number `n` on. */
  function ParseLines(parse: (ParseState, string) -> ParseState, s: ParseState, lines: seq<string>, n: nat): ParseState
    requires n <= |lines|
    decreases |lines| - n
  {
    if n == |lines| then s else ParseLines(parse, parse(s, lines[n]), lines, n + 1)
  }

  function PatchTextLines(patch: string): seq<string> {
    var lines := SplitLines(patch);
    if lines != [] && lines[|lines| - 1] == "" then lines[..|lines| - 1] else lines
  }

  function ParseUnifiedDiff(patch: string, diffPath: string -> string): seq<FilePatch> {
    var lines := PatchTextLines(patch);
    FinishPatch(ParseLines(LineParser(BEGIN_PATCH in lines, diffPath), ParseState([], None, None), lines, 0)).files
  }

  method ParsePatch(patch: string, diffPath: string -> string) returns (files: seq<FilePatch>)
    ensures files == ParseUnifiedDiff(patch, diffPath)
  {
    var lines := PatchTextLines(patch);
    var state := ParseEachLine(LineParser(BEGIN_PATCH in lines, diffPath), lines);
    files := FinishPatch(state).files;
  }

  method ParseEachLine(parse: (ParseState, string) -> ParseState, lines: seq<string>) returns (state: ParseState)
    ensures state == ParseLines(parse, ParseState([], None, None), lines, 0)
  {
    state := ParseState([], None, None);
    for n := 0 to |lines|
      invariant ParseLines(parse, ParseState([], None, None), lines, 0) == ParseLines(parse, state, lines, n)
    {
      state := parse(state, lines[n]);
    }
  }

  // ----- patching a proposal -----

  datatype ProposalOutcome = Patched(text: string) | InvalidPatch | Mismatch | NoChanges

  /** `applyRestrictedProposalPatch`: one existing file with one hunk, which has to fit and to change something. */
  function PatchProposal(proposed: string, patch: string, diffPath: string -> string): ProposalOutcome {
    var files := ParseUnifiedDiff(patch, diffPath);
    if |files| != 1 || |files[0].hunks| != 1 || files[0].isNewFile || files[0].isDeleted then InvalidPatch
    else
      match ApplyHunks(proposed, files[0].hunks)
      case Rejected(_) => Mismatch
      case Applied(text) => if text == proposed then NoChanges else Patched(text)
  }
}
