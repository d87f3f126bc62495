/**
 Patches of several files in both formats, the one between "Begin Patch" and "End Patch" and the unified one:
 parsing a printed list of added, updated and deleted files gives back that list.
 */
module PatchFormats {
  import opened Options
  import opened TextLines
  import opened PatchApply
  import opened UnifiedDiff
  import opened LineSpans
  import opened DiffRoundTrip
  import opened DiffWindowsEndings

  /** What a patch says of one file. Only the unified format shows the lines of a deleted file. */
  datatype Section =
    | Added(path: string, lines: seq<string>)
    | Updated(path: string, hunks: seq<Hunk>)
    | Deleted(path: string, lines: seq<string>)

  /**
   How a patch is printed: its format, whether empty context lines are bare, with which line endings, and
   what follows the line number of a hunk on its mark.
   */
  datatype Style = Style(marked: bool, bare: bool, windows: bool, rest: Hunk -> string)

  const NO_FILE := "/dev/null"

  // ----- printing -----

  function PrintedLine(style: Style, line: HunkLine): string {
    if style.bare && line == HunkLine(Context, "") then "" else PrintLine(line)
  }

  function BodyLines(style: Style, body: seq<HunkLine>): seq<string> {
    seq(|body|, i requires 0 <= i < |body| => PrintedLine(style, body[i]))
  }

  function Mark(style: Style, hunk: Hunk): string {
    match hunk.oldStart
    case None => "@@"
    case Some(start) => "@@ -" + Decimal(start) + style.rest(hunk)
  }

  function HunkLines(style: Style, hunk: Hunk): seq<string> {
    [Mark(style, hunk)] + BodyLines(style, hunk.lines)
  }

  function AllHunkLines(style: Style, hunks: seq<Hunk>): seq<string> {
    if hunks == [] then [] else HunkLines(style, hunks[0]) + AllHunkLines(style, hunks[1..])
  }

  /** The mark of a file's first lines reads "@@ -0,0 +1,count @@". */
  function RestOfNewMark(count: nat): string {
    ",0 +1," + Decimal(count) + " @@"
  }

  /** The mark of a file's last lines reads "@@ -1,count +0,0 @@". */
  function RestOfLastMark(count: nat): string {
    "," + Decimal(count) + " +0,0 @@"
  }

  function SectionLines(style: Style, section: Section): seq<string> {
    match section
    case Added(path, lines) =>
      (if style.marked then ["*** Add File: " + path]
       else ["--- " + NO_FILE, "+++ " + ("b/" + path), "@@ -" + Decimal(0) + RestOfNewMark(|lines|)])
      + BodyLines(style, Kinded(Add, lines))
    case Updated(path, hunks) =>
      (if style.marked then ["*** Update File: " + path] else ["--- " + ("a/" + path), "+++ " + ("b/" + path)])
      + AllHunkLines(style, hunks)
    case Deleted(path, lines) =>
      if style.marked then ["*** Delete File: " + path]
      else ["--- " + ("a/" + path), "+++ " + NO_FILE, "@@ -" + Decimal(1) + RestOfLastMark(|lines|)]
           + BodyLines(style, Kinded(Remove, lines))
  }

  function AllSectionLines(style: Style, sections: seq<Section>): seq<string> {
    if sections == [] then [] else SectionLines(style, sections[0]) + AllSectionLines(style, sections[1..])
  }

  function AllLines(style: Style, sections: seq<Section>): seq<string> {
    if style.marked then ["*** Begin Patch"] + AllSectionLines(style, sections) + ["*** End Patch"]
    else AllSectionLines(style, sections)
  }

  function PrintPatch(style: Style, sections: seq<Section>): string {
    Join(AllLines(style, sections) + [""], if style.windows then "\r\n" else "\n")
  }

  // ----- what has to come back -----

  function ExpectedPatch(marked: bool, section: Section, diffPath: string -> string): FilePatch {
    match section
    case Added(path, lines) =>
      FilePatch(diffPath(if marked then path else "b/" + path), [Hunk(Some(1), Kinded(Add, lines))], true, false)
    case Updated(path, hunks) =>
      FilePatch(if marked then diffPath(path) else ParsedPath(path, diffPath), hunks, false, false)
    case Deleted(path, _) =>
      FilePatch(diffPath(if marked then path else "a/" + path), if marked then [] else [Hunk(Some(1), [])],
                false, true)
  }

  function ExpectedPatches(marked: bool, sections: seq<Section>, diffPath: string -> string): seq<FilePatch> {
    seq(|sections|, i requires 0 <= i < |sections| => ExpectedPatch(marked, sections[i], diffPath))
  }

  // ----- what can be printed -----

  /** One line of a patch: no newline in it, and no carriage return that splitting would take along. */
  predicate Clean(line: string) {
    '\n' !in line && (line != "" ==> line[|line| - 1] != '\r')
  }

  /** In the unified format a changed line must not look like a header. */
  predicate ShowsLine(marked: bool, line: HunkLine) {
    && Clean(line.value)
    && (!marked && line.kind == Remove ==> !StartsWith(line.value, "-- "))
    && (!marked && line.kind == Add ==> !StartsWith(line.value, "++ "))
  }

  predicate ShowsBody(marked: bool, body: seq<HunkLine>) {
    forall line :: line in body ==> ShowsLine(marked, line)
  }

  predicate ShowsHunk(style: Style, hunk: Hunk) {
    && ShowsBody(style.marked, hunk.lines)
    && (hunk.oldStart.Some? ==>
          && 0 < hunk.oldStart.value
          && var rest := style.rest(hunk); Clean(rest) && rest != "" && !IsDigit(rest[0]))
  }

  predicate ShowsPath(marked: bool, path: string) {
    && Clean(path)
    && (!marked ==> !Contains("--- " + ("a/" + path), NO_FILE) && !Contains("+++ " + ("b/" + path), NO_FILE))
  }

  predicate ShowsSection(style: Style, section: Section) {
    && ShowsPath(style.marked, section.path)
    && match section
       case Added(_, lines) => ShowsBody(style.marked, Kinded(Add, lines))
       case Updated(_, hunks) => forall hunk :: hunk in hunks ==> ShowsHunk(style, hunk)
       case Deleted(_, lines) => style.marked || ShowsBody(style.marked, Kinded(Remove, lines))
  }

  // ----- parsing line after line -----

  function Parsed(style: Style, diffPath: string -> string, s: ParseState, lines: seq<string>): ParseState {
    ParseLines(LineParser(style.marked, diffPath), s, lines, 0)
  }

  lemma {:induction false} LaterLines(parse: (ParseState, string) -> ParseState, s: ParseState, front: seq<string>,
                                      back: seq<string>, n: nat)
    requires n <= |back|
    ensures ParseLines(parse, s, front + back, |front| + n) == ParseLines(parse, s, back, n)
    decreases |back| - n
  {
    if n < |back| {
      assert (front + back)[|front| + n] == back[n];
      LaterLines(parse, parse(s, back[n]), front, back, n + 1);
    }
  }

  lemma {:induction false} LinesInTurn(parse: (ParseState, string) -> ParseState, s: ParseState, front: seq<string>,
                                       back: seq<string>, n: nat)
    requires n <= |front|
    ensures ParseLines(parse, s, front + back, n) == ParseLines(parse, ParseLines(parse, s, front, n), back, 0)
    decreases |front| - n
  {
    if n < |front| {
      assert (front + back)[n] == front[n];
      LinesInTurn(parse, parse(s, front[n]), front, back, n + 1);
    } else {
      LaterLines(parse, s, front, back, 0);
    }
  }

  lemma {:induction false} ParsedInTurn(style: Style, diffPath: string -> string, s: ParseState, front: seq<string>,
                                        back: seq<string>)
    ensures Parsed(style, diffPath, s, front + back)
         == Parsed(style, diffPath, Parsed(style, diffPath, s, front), back)
  {
    LinesInTurn(LineParser(style.marked, diffPath), s, front, back, 0);
  }

  lemma {:induction false} ParsedLine(style: Style, diffPath: string -> string, s: ParseState, line: string,
                                      back: seq<string>)
    requires Clean(line)
    ensures Parsed(style, diffPath, s, [line] + back)
         == Parsed(style, diffPath, ParseLine(s, style.marked, diffPath, line), back)
  {
    var parse := LineParser(style.marked, diffPath);
    assert StripCr(line) == line;
    assert ([line] + back)[0] == line;
    LaterLines(parse, parse(s, line), [line], back, 0);
  }

  // ----- hunks -----

  lemma PrintedLineParses(style: Style, diffPath: string -> string, s: ParseState, line: HunkLine)
    requires s.current.Some? && s.hunk.Some? && !s.current.value.isDeleted && ShowsLine(style.marked, line)
    ensures Clean(PrintedLine(style, line))
    ensures ParseLine(s, style.marked, diffPath, PrintedLine(style, line)) == Extended(s, [line])
  {
    var printed := PrintedLine(style, line);
    if printed != "" {
      assert printed == PrintLine(line) && printed[1..] == line.value;
      assert printed[0] != '*';
      PrefixTail(printed, "--- ", "-- ");
      PrefixTail(printed, "+++ ", "++ ");
    }
  }

  lemma {:induction false} BodyParses(style: Style, diffPath: string -> string, s: ParseState, body: seq<HunkLine>)
    requires s.current.Some? && s.hunk.Some? && !s.current.value.isDeleted && ShowsBody(style.marked, body)
    ensures Parsed(style, diffPath, s, BodyLines(style, body)) == Extended(s, body)
    decreases |body|
  {
    if body == [] {
      assert s.hunk.value.lines + body == s.hunk.value.lines;
    } else {
      var head, rest := PrintedLine(style, body[0]), BodyLines(style, body[1..]);
      assert BodyLines(style, body) == [head] + rest;
      PrintedLineParses(style, diffPath, s, body[0]);
      ParsedLine(style, diffPath, s, head, rest);
      BodyParses(style, diffPath, Extended(s, [body[0]]), body[1..]);
      ExtendedTwice(s, body);
    }
  }

  /** The lines of a deleted file are skipped. */
  lemma {:induction false} DeletedBodyParses(style: Style, diffPath: string -> string, s: ParseState,
                                             body: seq<HunkLine>)
    requires s.current.Some? && s.hunk.Some? && s.current.value.isDeleted && ShowsBody(style.marked, body)
    ensures Parsed(style, diffPath, s, BodyLines(style, body)) == s
    decreases |body|
  {
    if body != [] {
      var head, rest := PrintedLine(style, body[0]), BodyLines(style, body[1..]);
      assert BodyLines(style, body) == [head] + rest;
      DeletedLineParses(style, diffPath, s, body[0]);
      ParsedLine(style, diffPath, s, head, rest);
      DeletedBodyParses(style, diffPath, s, body[1..]);
    }
  }

  lemma DeletedLineParses(style: Style, diffPath: string -> string, s: ParseState, line: HunkLine)
    requires s.current.Some? && s.hunk.Some? && s.current.value.isDeleted && ShowsLine(style.marked, line)
    ensures Clean(PrintedLine(style, line))
    ensures ParseLine(s, style.marked, diffPath, PrintedLine(style, line)) == s
  {
    var printed := PrintedLine(style, line);
    if printed != "" {
      assert printed == PrintLine(line) && printed[1..] == line.value;
      assert printed[0] != '*' && printed[0] != '@';
      PrefixTail(printed, "--- ", "-- ");
      PrefixTail(printed, "+++ ", "++ ");
    }
  }

  /** The current patch with its open hunk put away. */
  function Closed(s: ParseState): FilePatch
    requires s.current.Some?
  {
    if s.hunk.Some? then s.current.value.(hunks := s.current.value.hunks + [s.hunk.value]) else s.current.value
  }

  lemma MarkOpensHunk(style: Style, diffPath: string -> string, s: ParseState, mark: string)
    requires s.current.Some? && StartsWith(mark, "@@")
    ensures ParseLine(s, style.marked, diffPath, mark)
         == ParseState(s.files, Some(Closed(s)), Some(Hunk(HunkOldStart(mark), [])))
  {
    assert mark[0] == "@@"[0];
  }

  lemma DigitsAreClean(digits: string, rest: string)
    requires forall i :: 0 <= i < |digits| ==> IsDigit(digits[i])
    requires Clean(rest) && rest != ""
    ensures Clean("@@ -" + digits + rest)
  {
  }

  lemma {:induction false} NumberedMark(start: nat, rest: string)
    requires Clean(rest) && rest != "" && !IsDigit(rest[0])
    ensures var mark := "@@ -" + Decimal(start) + rest;
            Clean(mark) && StartsWith(mark, "@@") && HunkOldStart(mark) == Some(Max(1, start))
  {
    DigitsAreClean(Decimal(start), rest);
    OldStartOfHeader("@@ -" + Decimal(start) + rest, start, rest);
  }

  lemma {:induction false} MarkIsRead(style: Style, hunk: Hunk)
    requires ShowsHunk(style, hunk)
    ensures var mark := Mark(style, hunk);
            Clean(mark) && StartsWith(mark, "@@") && HunkOldStart(mark) == hunk.oldStart
  {
    match hunk.oldStart
    case None => assert "@@"[2..] == "";
    case Some(start) => NumberedMark(start, style.rest(hunk));
  }

  lemma {:induction false} HunkParses(style: Style, diffPath: string -> string, s: ParseState, hunk: Hunk)
    requires s.current.Some? && !s.current.value.isDeleted && ShowsHunk(style, hunk)
    ensures Parsed(style, diffPath, s, HunkLines(style, hunk))
         == ParseState(s.files, Some(Closed(s)), Some(hunk))
  {
    var mark := Mark(style, hunk);
    MarkIsRead(style, hunk);
    ParsedLine(style, diffPath, s, mark, BodyLines(style, hunk.lines));
    MarkOpensHunk(style, diffPath, s, mark);
    BodyParses(style, diffPath, ParseState(s.files, Some(Closed(s)), Some(Hunk(hunk.oldStart, []))), hunk.lines);
    assert [] + hunk.lines == hunk.lines;
  }

  lemma HunkFurther(style: Style, diffPath: string -> string, s: ParseState, hunks: seq<Hunk>)
    returns (next: ParseState)
    requires s.current.Some? && !s.current.value.isDeleted && hunks != [] && ShowsHunk(style, hunks[0])
    ensures Parsed(style, diffPath, s, AllHunkLines(style, hunks))
         == Parsed(style, diffPath, next, AllHunkLines(style, hunks[1..]))
    ensures next == ParseState(s.files, Some(Closed(s)), Some(hunks[0]))
  {
    next := ParseState(s.files, Some(Closed(s)), Some(hunks[0]));
    HunkParses(style, diffPath, s, hunks[0]);
    ParsedInTurn(style, diffPath, s, HunkLines(style, hunks[0]), AllHunkLines(style, hunks[1..]));
  }

  lemma HunksRegroup(front: seq<Hunk>, hunks: seq<Hunk>)
    requires hunks != []
    ensures front + [hunks[0]] + hunks[1..] == front + hunks
  {
  }

  lemma {:induction false} HunksParse(style: Style, diffPath: string -> string, s: ParseState, hunks: seq<Hunk>)
    requires s.current.Some? && !s.current.value.isDeleted
    requires forall hunk :: hunk in hunks ==> ShowsHunk(style, hunk)
    ensures FinishPatch(Parsed(style, diffPath, s, AllHunkLines(style, hunks))).files
         == s.files + [Closed(s).(hunks := Closed(s).hunks + hunks)]
    decreases |hunks|
  {
    if hunks == [] {
      assert Closed(s).hunks + hunks == Closed(s).hunks;
    } else {
      var next := HunkFurther(style, diffPath, s, hunks);
      HunksParse(style, diffPath, next, hunks[1..]);
      HunksRegroup(Closed(s).hunks, hunks);
    }
  }

  // ----- sections -----

  /** A new patch begins; the one before is put away. */
  function Begun(s: ParseState, path: string, isNew: bool, isDeleted: bool, hunk: Option<Hunk>): ParseState {
    ParseState(FinishPatch(s).files, Some(FilePatch(path, [], isNew, isDeleted)), hunk)
  }

  lemma MarkedHeaderIsClean(header: string, path: string)
    requires Clean(path) && header in {ADD_FILE, UPDATE_FILE, DELETE_FILE}
    ensures var line := header + path;
            Clean(line) && header <= line && line[|header|..] == path && line != BEGIN_PATCH && line != END_PATCH
  {
    var line := header + path;
    assert line[4] == header[4];
    assert BEGIN_PATCH[4] == 'B' && END_PATCH[4] == 'E';
  }

  lemma MarkedHeaderParses(diffPath: string -> string, s: ParseState, section: Section)
    requires Clean(section.path)
    ensures var header := match section case Added(_, _) => ADD_FILE case Updated(_, _) => UPDATE_FILE
                                        case Deleted(_, _) => DELETE_FILE;
            && Clean(header + section.path)
            && ParseLine(s, true, diffPath, header + section.path)
                 == Begun(s, diffPath(section.path), section.Added?, section.Deleted?,
                          if section.Added? then Some(Hunk(Some(1), [])) else None)
  {
    var header := match section case Added(_, _) => ADD_FILE case Updated(_, _) => UPDATE_FILE
                                case Deleted(_, _) => DELETE_FILE;
    MarkedHeaderIsClean(header, section.path);
    assert (header + section.path)[4] == header[4];
    assert ADD_FILE[4] == 'A' && UPDATE_FILE[4] == 'U' && DELETE_FILE[4] == 'D';
  }

  lemma AddedBodyParses(style: Style, diffPath: string -> string, s: ParseState, lines: seq<string>)
    requires s.current.Some? && s.hunk == Some(Hunk(Some(1), [])) && !s.current.value.isDeleted
    requires s.current.value.hunks == [] && ShowsBody(style.marked, Kinded(Add, lines))
    ensures FinishPatch(Parsed(style, diffPath, s, BodyLines(style, Kinded(Add, lines)))).files
         == s.files + [s.current.value.(hunks := [Hunk(Some(1), Kinded(Add, lines))])]
  {
    var body := Kinded(Add, lines);
    BodyParses(style, diffPath, s, body);
    assert Extended(s, body).hunk == Some(Hunk(Some(1), [] + body)) && [] + body == body;
    assert [] + [Hunk(Some(1), body)] == [Hunk(Some(1), body)];
  }

  lemma {:induction false} MarkedAdditionParses(style: Style, diffPath: string -> string, s: ParseState,
                                                path: string, lines: seq<string>)
    requires style.marked && Clean(path) && ShowsBody(true, Kinded(Add, lines))
    ensures FinishPatch(Parsed(style, diffPath, s, SectionLines(style, Added(path, lines)))).files
         == FinishPatch(s).files + [ExpectedPatch(true, Added(path, lines), diffPath)]
  {
    MarkedHeaderParses(diffPath, s, Added(path, lines));
    ParsedLine(style, diffPath, s, ADD_FILE + path, BodyLines(style, Kinded(Add, lines)));
    AddedBodyParses(style, diffPath, Begun(s, diffPath(path), true, false, Some(Hunk(Some(1), []))), lines);
  }

  lemma {:induction false} MarkedUpdateParses(style: Style, diffPath: string -> string, s: ParseState,
                                              path: string, hunks: seq<Hunk>)
    requires style.marked && Clean(path) && forall hunk :: hunk in hunks ==> ShowsHunk(style, hunk)
    ensures FinishPatch(Parsed(style, diffPath, s, SectionLines(style, Updated(path, hunks)))).files
         == FinishPatch(s).files + [ExpectedPatch(true, Updated(path, hunks), diffPath)]
  {
    MarkedHeaderParses(diffPath, s, Updated(path, hunks));
    ParsedLine(style, diffPath, s, UPDATE_FILE + path, AllHunkLines(style, hunks));
    HunksParse(style, diffPath, Begun(s, diffPath(path), false, false, None), hunks);
    assert [] + hunks == hunks;
  }

  lemma {:induction false} MarkedDeletionParses(style: Style, diffPath: string -> string, s: ParseState,
                                                path: string, lines: seq<string>)
    requires style.marked && Clean(path)
    ensures FinishPatch(Parsed(style, diffPath, s, SectionLines(style, Deleted(path, lines)))).files
         == FinishPatch(s).files + [ExpectedPatch(true, Deleted(path, lines), diffPath)]
  {
    MarkedHeaderParses(diffPath, s, Deleted(path, lines));
    ParsedLine(style, diffPath, s, DELETE_FILE + path, []);
    assert [DELETE_FILE + path] + [] == [DELETE_FILE + path];
  }

  lemma OldNameParses(diffPath: string -> string, s: ParseState, name: string)
    requires Clean(name) && name != ""
    ensures Clean("--- " + name)
    ensures ParseLine(s, false, diffPath, "--- " + name)
         == Begun(s, diffPath(name), Contains("--- " + name, NO_FILE), false, None)
  {
    var line := "--- " + name;
    assert line[4..] == name;
    assert line[|line| - 1] == name[|name| - 1];
  }

  lemma NewNameParses(diffPath: string -> string, s: ParseState, name: string)
    requires Clean(name) && name != "" && s.current.Some?
    ensures Clean("+++ " + name)
    ensures var current := s.current.value;
            ParseLine(s, false, diffPath, "+++ " + name)
              == s.(current := Some(current.(path := if diffPath(name) != "" then diffPath(name) else current.path,
                      isDeleted := current.isDeleted || Contains("+++ " + name, NO_FILE))))
  {
    var line := "+++ " + name;
    assert line[4..] == name;
    assert line[0] != "--- "[0];
    assert line[|line| - 1] == name[|name| - 1];
  }

  /** The two name lines of a patch in the unified format. */
  lemma NamesParse(style: Style, diffPath: string -> string, s: ParseState, older: string, newer: string,
                   rest: seq<string>)
    requires !style.marked && Clean(older) && Clean(newer) && older != "" && newer != ""
    ensures var path := if diffPath(newer) != "" then diffPath(newer) else diffPath(older);
            Parsed(style, diffPath, s, ["--- " + older, "+++ " + newer] + rest)
              == Parsed(style, diffPath, Begun(s, path, Contains("--- " + older, NO_FILE),
                                               Contains("+++ " + newer, NO_FILE), None), rest)
  {
    var next := Begun(s, diffPath(older), Contains("--- " + older, NO_FILE), false, None);
    OldNameParses(diffPath, s, older);
    NewNameParses(diffPath, next, newer);
    assert ["--- " + older, "+++ " + newer] + rest == ["--- " + older] + (["+++ " + newer] + rest);
    ParsedLine(style, diffPath, s, "--- " + older, ["+++ " + newer] + rest);
    ParsedLine(style, diffPath, next, "+++ " + newer, rest);
  }

  lemma NamesAreClean(path: string)
    requires Clean(path)
    ensures Clean("a/" + path) && Clean("b/" + path) && Clean(NO_FILE)
  {
  }

  lemma NullIsContained()
    ensures Contains("--- " + NO_FILE, NO_FILE) && Contains("+++ " + NO_FILE, NO_FILE)
  {
    assert ("--- " + NO_FILE)[4..] == NO_FILE;
    assert ("+++ " + NO_FILE)[4..] == NO_FILE;
  }

  lemma RestsAreClean(count: nat)
    ensures var rest := RestOfNewMark(count); Clean(rest) && rest != "" && !IsDigit(rest[0])
    ensures var rest := RestOfLastMark(count); Clean(rest) && rest != "" && !IsDigit(rest[0])
  {
    DigitsArePlain(Decimal(count));
  }

  lemma PlainMark(style: Style, diffPath: string -> string, s: ParseState, start: nat, rest: string,
                  back: seq<string>)
    requires s.current.Some? && Clean(rest) && rest != "" && !IsDigit(rest[0])
    ensures Parsed(style, diffPath, s, ["@@ -" + Decimal(start) + rest] + back)
         == Parsed(style, diffPath, ParseState(s.files, Some(Closed(s)), Some(Hunk(Some(Max(1, start)), []))), back)
  {
    var mark := "@@ -" + Decimal(start) + rest;
    NumberedMark(start, rest);
    ParsedLine(style, diffPath, s, mark, back);
    MarkOpensHunk(style, diffPath, s, mark);
  }

  lemma {:induction false} UnifiedAdditionParses(style: Style, diffPath: string -> string, s: ParseState,
                                                 path: string, lines: seq<string>)
    requires !style.marked && ShowsPath(false, path) && ShowsBody(false, Kinded(Add, lines))
    requires diffPath(NO_FILE) == ""
    ensures FinishPatch(Parsed(style, diffPath, s, SectionLines(style, Added(path, lines)))).files
         == FinishPatch(s).files + [ExpectedPatch(false, Added(path, lines), diffPath)]
  {
    var rest := RestOfNewMark(|lines|);
    var body := BodyLines(style, Kinded(Add, lines));
    var next := Begun(s, diffPath("b/" + path), true, false, None);
    RestsAreClean(|lines|);
    AdditionNamesParse(style, diffPath, s, path, ["@@ -" + Decimal(0) + rest] + body);
    PlainMark(style, diffPath, next, 0, rest, body);
    AddedBodyParses(style, diffPath, next.(hunk := Some(Hunk(Some(1), []))), lines);
    Three("--- " + NO_FILE, "+++ " + ("b/" + path), "@@ -" + Decimal(0) + rest, body);
  }

  lemma Three(a: string, b: string, c: string, rest: seq<string>)
    ensures [a, b, c] + rest == [a, b] + ([c] + rest)
  {
  }

  lemma AdditionNamesParse(style: Style, diffPath: string -> string, s: ParseState, path: string,
                           rest: seq<string>)
    requires !style.marked && ShowsPath(false, path) && diffPath(NO_FILE) == ""
    ensures Parsed(style, diffPath, s, ["--- " + NO_FILE, "+++ " + ("b/" + path)] + rest)
         == Parsed(style, diffPath, Begun(s, diffPath("b/" + path), true, false, None), rest)
  {
    NamesAreClean(path);
    NullIsContained();
    NamesParse(style, diffPath, s, NO_FILE, "b/" + path, rest);
  }

  lemma {:induction false} UnifiedUpdateParses(style: Style, diffPath: string -> string, s: ParseState,
                                               path: string, hunks: seq<Hunk>)
    requires !style.marked && ShowsPath(false, path) && forall hunk :: hunk in hunks ==> ShowsHunk(style, hunk)
    ensures FinishPatch(Parsed(style, diffPath, s, SectionLines(style, Updated(path, hunks)))).files
         == FinishPatch(s).files + [ExpectedPatch(false, Updated(path, hunks), diffPath)]
  {
    NamesAreClean(path);
    NamesParse(style, diffPath, s, "a/" + path, "b/" + path, AllHunkLines(style, hunks));
    HunksParse(style, diffPath, Begun(s, ParsedPath(path, diffPath), false, false, None), hunks);
    assert [] + hunks == hunks;
  }

  lemma {:induction false} UnifiedDeletionParses(style: Style, diffPath: string -> string, s: ParseState,
                                                 path: string, lines: seq<string>)
    requires !style.marked && ShowsPath(false, path) && ShowsBody(false, Kinded(Remove, lines))
    requires diffPath(NO_FILE) == ""
    ensures FinishPatch(Parsed(style, diffPath, s, SectionLines(style, Deleted(path, lines)))).files
         == FinishPatch(s).files + [ExpectedPatch(false, Deleted(path, lines), diffPath)]
  {
    var rest := RestOfLastMark(|lines|);
    var body := BodyLines(style, Kinded(Remove, lines));
    var next := Begun(s, diffPath("a/" + path), false, true, None);
    RestsAreClean(|lines|);
    DeletionNamesParse(style, diffPath, s, path, ["@@ -" + Decimal(1) + rest] + body);
    PlainMark(style, diffPath, next, 1, rest, body);
    DeletedBodyParses(style, diffPath, next.(hunk := Some(Hunk(Some(1), []))), Kinded(Remove, lines));
    Three("--- " + ("a/" + path), "+++ " + NO_FILE, "@@ -" + Decimal(1) + rest, body);
    assert [] + [Hunk(Some(1), [])] == [Hunk(Some(1), [])];
  }

  lemma DeletionNamesParse(style: Style, diffPath: string -> string, s: ParseState, path: string,
                           rest: seq<string>)
    requires !style.marked && ShowsPath(false, path) && diffPath(NO_FILE) == ""
    ensures Parsed(style, diffPath, s, ["--- " + ("a/" + path), "+++ " + NO_FILE] + rest)
         == Parsed(style, diffPath, Begun(s, diffPath("a/" + path), false, true, None), rest)
  {
    NamesAreClean(path);
    NullIsContained();
    NamesParse(style, diffPath, s, "a/" + path, NO_FILE, rest);
  }

  lemma {:induction false} SectionParses(style: Style, diffPath: string -> string, s: ParseState, section: Section)
    requires ShowsSection(style, section) && (style.marked || diffPath(NO_FILE) == "")
    ensures FinishPatch(Parsed(style, diffPath, s, SectionLines(style, section))).files
         == FinishPatch(s).files + [ExpectedPatch(style.marked, section, diffPath)]
  {
    match section
    case Added(path, lines) =>
      if style.marked {
        MarkedAdditionParses(style, diffPath, s, path, lines);
      } else {
        UnifiedAdditionParses(style, diffPath, s, path, lines);
      }
    case Updated(path, hunks) =>
      if style.marked {
        MarkedUpdateParses(style, diffPath, s, path, hunks);
      } else {
        UnifiedUpdateParses(style, diffPath, s, path, hunks);
      }
    case Deleted(path, lines) =>
      if style.marked {
        MarkedDeletionParses(style, diffPath, s, path, lines);
      } else {
        UnifiedDeletionParses(style, diffPath, s, path, lines);
      }
  }

  lemma FirstExpected(marked: bool, sections: seq<Section>, diffPath: string -> string)
    requires sections != []
    ensures ExpectedPatches(marked, sections, diffPath)
         == [ExpectedPatch(marked, sections[0], diffPath)] + ExpectedPatches(marked, sections[1..], diffPath)
  {
  }

  lemma SectionFurther(style: Style, diffPath: string -> string, s: ParseState, sections: seq<Section>)
    returns (next: ParseState)
    requires sections != [] && ShowsSection(style, sections[0]) && (style.marked || diffPath(NO_FILE) == "")
    ensures Parsed(style, diffPath, s, AllSectionLines(style, sections))
         == Parsed(style, diffPath, next, AllSectionLines(style, sections[1..]))
    ensures FinishPatch(next).files == FinishPatch(s).files + [ExpectedPatch(style.marked, sections[0], diffPath)]
  {
    var head := SectionLines(style, sections[0]);
    next := Parsed(style, diffPath, s, head);
    SectionParses(style, diffPath, s, sections[0]);
    ParsedInTurn(style, diffPath, s, head, AllSectionLines(style, sections[1..]));
  }

  lemma FilesRegroup(front: seq<FilePatch>, first: seq<FilePatch>, rest: seq<FilePatch>)
    ensures front + (first + rest) == front + first + rest
  {
  }

  /** One section after the other; the patch before the first one is put away as well. */
  lemma {:induction false} SectionsParse(style: Style, diffPath: string -> string, s: ParseState,
                                         sections: seq<Section>)
    requires forall section :: section in sections ==> ShowsSection(style, section)
    requires style.marked || diffPath(NO_FILE) == ""
    ensures FinishPatch(Parsed(style, diffPath, s, AllSectionLines(style, sections))).files
         == FinishPatch(s).files + ExpectedPatches(style.marked, sections, diffPath)
    decreases |sections|
  {
    if sections == [] {
      assert FinishPatch(s).files + [] == FinishPatch(s).files;
    } else {
      var next := SectionFurther(style, diffPath, s, sections);
      SectionsParse(style, diffPath, next, sections[1..]);
      FirstExpected(style.marked, sections, diffPath);
      FilesRegroup(FinishPatch(s).files, [ExpectedPatch(style.marked, sections[0], diffPath)],
                   ExpectedPatches(style.marked, sections[1..], diffPath));
    }
  }

  // ----- the printed lines are the parsed lines -----

  /** A clean line; in the unified format it opens no patch of the other format. */
  predicate Fits(marked: bool, line: string) {
    Clean(line) && (!marked ==> line != BEGIN_PATCH)
  }

  predicate AllFit(marked: bool, lines: seq<string>) {
    forall line :: line in lines ==> Fits(marked, line)
  }

  lemma BodyFits(style: Style, body: seq<HunkLine>)
    requires ShowsBody(style.marked, body)
    ensures AllFit(style.marked, BodyLines(style, body))
  {
    forall line | line in BodyLines(style, body)
      ensures Fits(style.marked, line)
    {
      var i :| 0 <= i < |body| && line == BodyLines(style, body)[i];
      assert body[i] in body;
      if line != "" {
        assert line == PrintLine(body[i]) && line[0] != '*';
      }
    }
  }

  lemma MarkFits(style: Style, start: nat, rest: string)
    requires Clean(rest) && rest != "" && !IsDigit(rest[0])
    ensures Fits(style.marked, "@@ -" + Decimal(start) + rest)
  {
    NumberedMark(start, rest);
    assert ("@@ -" + Decimal(start) + rest)[0] == '@';
  }

  lemma HunkFits(style: Style, hunk: Hunk)
    requires ShowsHunk(style, hunk)
    ensures AllFit(style.marked, HunkLines(style, hunk))
  {
    MarkIsRead(style, hunk);
    assert Mark(style, hunk)[0] == '@';
    BodyFits(style, hunk.lines);
  }

  lemma {:induction false} HunksFit(style: Style, hunks: seq<Hunk>)
    requires forall hunk :: hunk in hunks ==> ShowsHunk(style, hunk)
    ensures AllFit(style.marked, AllHunkLines(style, hunks))
  {
    if hunks != [] {
      HunkFits(style, hunks[0]);
      HunksFit(style, hunks[1..]);
    }
  }

  lemma HeaderFits(style: Style, section: Section)
    requires Clean(section.path)
    ensures style.marked ==> forall header :: header in {ADD_FILE, UPDATE_FILE, DELETE_FILE} ==>
              Fits(true, header + section.path)
  {
    forall header | header in {ADD_FILE, UPDATE_FILE, DELETE_FILE}
      ensures Fits(true, header + section.path)
    {
      MarkedHeaderIsClean(header, section.path);
    }
  }

  lemma NamesFit(marked: bool, path: string)
    requires Clean(path)
    ensures Fits(marked, "--- " + ("a/" + path)) && Fits(marked, "+++ " + ("b/" + path))
    ensures Fits(marked, "--- " + NO_FILE) && Fits(marked, "+++ " + NO_FILE)
  {
    NamesAreClean(path);
    NameFits(marked, "--- ", "a/" + path);
    NameFits(marked, "+++ ", "b/" + path);
    NameFits(marked, "--- ", NO_FILE);
    NameFits(marked, "+++ ", NO_FILE);
  }

  lemma NameFits(marked: bool, header: string, name: string)
    requires Clean(name) && name != "" && header in {"--- ", "+++ "}
    ensures Fits(marked, header + name)
  {
    var line := header + name;
    assert line[0] == header[0] != BEGIN_PATCH[0];
    assert line[|line| - 1] == name[|name| - 1];
  }

  lemma SectionFits(style: Style, section: Section)
    requires ShowsSection(style, section)
    ensures AllFit(style.marked, SectionLines(style, section))
  {
    HeaderFits(style, section);
    NamesFit(style.marked, section.path);
    match section
    case Added(_, lines) =>
      BodyFits(style, Kinded(Add, lines));
      RestsAreClean(|lines|);
      MarkFits(style, 0, RestOfNewMark(|lines|));
    case Updated(_, hunks) => HunksFit(style, hunks);
    case Deleted(_, lines) =>
      if !style.marked {
        BodyFits(style, Kinded(Remove, lines));
        RestsAreClean(|lines|);
        MarkFits(style, 1, RestOfLastMark(|lines|));
      }
  }

  lemma {:induction false} SectionsFit(style: Style, sections: seq<Section>)
    requires forall section :: section in sections ==> ShowsSection(style, section)
    ensures AllFit(style.marked, AllSectionLines(style, sections))
  {
    if sections != [] {
      SectionFits(style, sections[0]);
      SectionsFit(style, sections[1..]);
    }
  }

  /** Clean lines come back from a text in which each ends with a newline of either kind. */
  lemma CleanLinesComeBack(lines: seq<string>, windows: bool)
    requires forall line :: line in lines ==> Clean(line)
    ensures PatchTextLines(Join(lines + [""], if windows then "\r\n" else "\n")) == lines
  {
    var all := lines + [""];
    var pieces := if windows then CrlfPieces(all) else all;
    forall i | 0 <= i < |all|
      ensures '\n' !in pieces[i] && StripCr(all[i]) == all[i]
      ensures i < |all| - 1 ==> StripCr(pieces[i]) == all[i]
      ensures i == |all| - 1 ==> pieces[i] == all[i]
    {
      assert all[i] in all;
      assert windows && i < |all| - 1 ==> pieces[i] == all[i] + "\r" && pieces[i][..|pieces[i]| - 1] == all[i];
    }
    JoinedPieces(all);
    SplitJoin(pieces);
    assert SplitLines(Join(pieces, "\n")) == all;
  }

  lemma PrintedLinesComeBack(style: Style, sections: seq<Section>)
    requires forall section :: section in sections ==> ShowsSection(style, section)
    ensures PatchTextLines(PrintPatch(style, sections)) == AllLines(style, sections)
    ensures style.marked <==> BEGIN_PATCH in AllLines(style, sections)
  {
    SectionsFit(style, sections);
    assert Clean(BEGIN_PATCH) && Clean(END_PATCH);
    if style.marked {
      assert AllLines(style, sections)[0] == BEGIN_PATCH;
    } else {
      assert Fits(false, BEGIN_PATCH) ==> false;
    }
    CleanLinesComeBack(AllLines(style, sections), style.windows);
  }

  // ----- the round trip -----

  lemma EndIsSkipped(style: Style, diffPath: string -> string, s: ParseState)
    requires style.marked
    ensures FinishPatch(Parsed(style, diffPath, s, [END_PATCH])).files == FinishPatch(s).files
  {
    ParsedLine(style, diffPath, s, END_PATCH, []);
    assert [END_PATCH] + [] == [END_PATCH];
    assert BEGIN_PATCH != END_PATCH;
  }

  lemma {:induction false} MarkersAreSkipped(style: Style, diffPath: string -> string, sections: seq<Section>)
    requires style.marked
    ensures var start := ParseState([], None, None);
            FinishPatch(Parsed(style, diffPath, start, AllLines(style, sections))).files
              == FinishPatch(Parsed(style, diffPath, start, AllSectionLines(style, sections))).files
  {
    var start, lines := ParseState([], None, None), AllSectionLines(style, sections);
    assert AllLines(style, sections) == [BEGIN_PATCH] + (lines + [END_PATCH]);
    ParsedLine(style, diffPath, start, BEGIN_PATCH, lines + [END_PATCH]);
    ParsedInTurn(style, diffPath, start, lines, [END_PATCH]);
    EndIsSkipped(style, diffPath, Parsed(style, diffPath, start, lines));
  }

  /**
   Parsing a printed patch gives back its files one by one, in either format: the paths, which of them
   are new or deleted, and every hunk with its line number and its lines.
   */
  lemma {:induction false} PatchComesBack(style: Style, sections: seq<Section>, diffPath: string -> string)
    requires forall section :: section in sections ==> ShowsSection(style, section)
    requires style.marked || diffPath(NO_FILE) == ""
    ensures ParseUnifiedDiff(PrintPatch(style, sections), diffPath)
         == ExpectedPatches(style.marked, sections, diffPath)
  {
    var start := ParseState([], None, None);
    PrintedLinesComeBack(style, sections);
    SectionsParse(style, diffPath, start, sections);
    if style.marked {
      MarkersAreSkipped(style, diffPath, sections);
    }
    var expected := ExpectedPatches(style.marked, sections, diffPath);
    assert FinishPatch(start).files + expected == expected;
  }

  lemma FileComesBack(style: Style, sections: seq<Section>, diffPath: string -> string, i: nat)
    returns (file: FilePatch)
    requires forall section :: section in sections ==> ShowsSection(style, section)
    requires i < |sections| && (style.marked || diffPath(NO_FILE) == "")
    ensures var files := ParseUnifiedDiff(PrintPatch(style, sections), diffPath);
            |files| == |sections| && files[i] == file
    ensures file == ExpectedPatch(style.marked, sections[i], diffPath)
  {
    PatchComesBack(style, sections, diffPath);
    file := ExpectedPatches(style.marked, sections, diffPath)[i];
  }

  // ----- patching a proposal -----

  /** A patch that updates one file with one hunk. */
  predicate IsOneHunk(sections: seq<Section>) {
    |sections| == 1 && sections[0].Updated? && |sections[0].hunks| == 1
  }

  /** A proposal takes a patch of one hunk in one existing file, and nothing else. */
  lemma {:induction false} ProposalTakesOneHunk(style: Style, sections: seq<Section>, diffPath: string -> string,
                                                proposed: string)
    requires forall section :: section in sections ==> ShowsSection(style, section)
    requires style.marked || diffPath(NO_FILE) == ""
    ensures var outcome := PatchProposal(proposed, PrintPatch(style, sections), diffPath);
            && (outcome == InvalidPatch <==> !IsOneHunk(sections))
            && (IsOneHunk(sections) ==>
                  var applied := ApplyHunks(proposed, sections[0].hunks);
                  && (outcome == Mismatch <==> applied.Rejected?)
                  && (outcome == NoChanges <==> applied == Applied(proposed))
                  && forall text :: outcome == Patched(text) <==> applied == Applied(text) && text != proposed)
  {
    PatchComesBack(style, sections, diffPath);
  }

  /**
   Between the markers no changed line can be mistaken for a header: the hunk that turns one text into
   another does so exactly when `RoundTrips`, whatever the lines look like.
   */
  lemma {:induction false} MarkedPatchGivesUpdatedExactlyWhen(style: Style, path: string, original: string,
                                                              updated: string, prefix: nat, suffix: nat,
                                                              diffPath: string -> string)
    requires style.marked && Clean(path) && '\r' !in original && '\r' !in updated
    requires IsSpan(DiffLines(original), DiffLines(updated), prefix, suffix)
    requires var rest := style.rest(TheHunk(DiffLines(original), DiffLines(updated), prefix, suffix));
             Clean(rest) && rest != "" && !IsDigit(rest[0])
    ensures var hunk := TheHunk(DiffLines(original), DiffLines(updated), prefix, suffix);
            var outcome := if updated == original then NoChanges else Patched(updated);
            (PatchProposal(original, PrintPatch(style, [Updated(path, [hunk])]), diffPath) == outcome)
              <==> RoundTrips(original, updated)
  {
    var before, after := DiffLines(original), DiffLines(updated);
    var hunk := TheHunk(before, after, prefix, suffix);
    DiffLinesArePlain(original);
    DiffLinesArePlain(updated);
    BodyIsPlain(before, after, prefix, suffix);
    assert ShowsHunk(style, hunk);
    TheHunkApplies(original, updated, prefix, suffix);
    ProposalTakesOneHunk(style, [Updated(path, [hunk])], diffPath, original);
  }
}
