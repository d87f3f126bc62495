/** Applying the hunks of a unified diff to a text: locating each hunk, splicing it in and keeping an offset. */
module PatchApply {
  import opened Options
  import opened TextLines

  datatype LineKind = Context | Add | Remove
  datatype HunkLine = HunkLine(kind: LineKind, value: string)
  datatype Hunk = Hunk(oldStart: Option<nat>, lines: seq<HunkLine>)

  datatype Issue = ContextNotFound(hunk: nat) | ContextAmbiguous(hunk: nat, candidates: seq<nat>)
  datatype Outcome = Applied(text: string) | Rejected(issues: seq<Issue>)

  // ----- splitting and joining -----

  function StripCr(line: string): string {
    if line != "" && line[|line| - 1] == '\r' then line[..|line| - 1] else line
  }

  /** `text.split(/\r?\n/)`: every newline takes a carriage return before it along. */
  function SplitLines(text: string): seq<string> {
    var pieces := Split(text);
    seq(|pieces|, i requires 0 <= i < |pieces| => if i < |pieces| - 1 then StripCr(pieces[i]) else pieces[i])
  }

  predicate Contains(text: string, part: string) {
    exists i {:trigger text[i..]} :: 0 <= i <= |text| && part <= text[i..]
  }

  predicate EndsWithNewline(text: string) {
    text != "" && text[|text| - 1] == '\n'
  }

  datatype PatchLines = PatchLines(lines: seq<string>, lineEnding: string, hadTrailingNewline: bool)

  function SplitPatchLines(original: string): PatchLines {
    var ending := if Contains(original, "\r\n") then "\r\n" else "\n";
    var trailing := EndsWithNewline(original);
    var body := if trailing && |ending| <= |original| then original[..|original| - |ending|]
                else if trailing then "" else original;
    PatchLines(if body == "" then [] else SplitLines(body), ending, trailing)
  }

  function JoinPatchLines(original: string, split: PatchLines, lines: seq<string>): string {
    var output := Join(lines, split.lineEnding);
    if output != "" && (split.hadTrailingNewline || original == "") then output + split.lineEnding else output
  }

  // ----- the two sides of a hunk -----

  function OldSide(lines: seq<HunkLine>): seq<string> {
    if lines == [] then []
    else (if lines[0].kind == Add then [] else [lines[0].value]) + OldSide(lines[1..])
  }

  function NewSide(lines: seq<HunkLine>): seq<string> {
    if lines == [] then []
    else (if lines[0].kind == Remove then [] else [lines[0].value]) + NewSide(lines[1..])
  }

  // ----- locating a hunk -----

  predicate MatchesAt(lines: seq<string>, pattern: seq<string>, position: int) {
    0 <= position && position + |pattern| <= |lines| && lines[position..position + |pattern|] == pattern
  }

  datatype Location = At(position: nat) | NotFound | Ambiguous(candidates: seq<nat>)

  /** The positions from `from` on where the pattern matches, in ascending order. */
  function Candidates(lines: seq<string>, pattern: seq<string>, from: nat): seq<nat>
    decreases |lines| - from
  {
    if |lines| < from + |pattern| || |lines| <= from then []
    else (if MatchesAt(lines, pattern, from) then [from] else []) + Candidates(lines, pattern, from + 1)
  }

  lemma {:induction false} CandidatesAreMatches(lines: seq<string>, pattern: seq<string>, from: nat, position: nat)
    requires pattern != []
    ensures position in Candidates(lines, pattern, from) <==> from <= position && MatchesAt(lines, pattern, position)
    decreases |lines| - from
  {
    if from + |pattern| <= |lines| {
      CandidatesAreMatches(lines, pattern, from + 1, position);
    }
  }

  lemma CandidatesFurther(lines: seq<string>, pattern: seq<string>, from: nat, found: seq<nat>)
    requires pattern != [] && from + |pattern| <= |lines|
    ensures found + Candidates(lines, pattern, from)
         == (if MatchesAt(lines, pattern, from) then found + [from] else found) + Candidates(lines, pattern, from + 1)
  {
    assert found + [] == found;
    assert found + ([from] + Candidates(lines, pattern, from + 1))
        == (found + [from]) + Candidates(lines, pattern, from + 1);
  }

  function Locate(lines: seq<string>, pattern: seq<string>, preferred: Option<int>): Location {
    if pattern == [] then At(Max(0, Min(|lines|, if preferred.Some? then preferred.value else |lines|)))
    else if preferred.Some? && MatchesAt(lines, pattern, preferred.value) then At(preferred.value)
    else
      var candidates := Candidates(lines, pattern, 0);
      if candidates == [] then NotFound else if |candidates| == 1 then At(candidates[0]) else Ambiguous(candidates)
  }

  lemma SoleMember(items: seq<nat>, item: nat)
    requires |items| == 1 && item in items
    ensures item == items[0]
  {
  }

  /**
   A hunk with an old side lands where it was expected, or else on the only place that matches; it is
   refused exactly when it matches nowhere, or not as expected and more than once.
   */
  lemma LocationIsExpectedOrUnique(lines: seq<string>, pattern: seq<string>, preferred: Option<int>, other: nat)
    requires pattern != []
    ensures var location := Locate(lines, pattern, preferred);
            match location
            case At(position) =>
              && MatchesAt(lines, pattern, position)
              && (preferred == Some(position) || (MatchesAt(lines, pattern, other) ==> other == position))
            case NotFound => !MatchesAt(lines, pattern, other)
            case Ambiguous(candidates) =>
              && 2 <= |candidates|
              && (other in candidates <==> MatchesAt(lines, pattern, other))
              && (preferred.Some? ==> !MatchesAt(lines, pattern, preferred.value))
  {
    var candidates := Candidates(lines, pattern, 0);
    CandidatesAreMatches(lines, pattern, 0, other);
    if |candidates| == 1 {
      CandidatesAreMatches(lines, pattern, 0, candidates[0]);
      if other in candidates {
        SoleMember(candidates, other);
      }
    }
  }

  // ----- splicing a hunk in -----

  /** `lines.splice(index, 0, value)`: an index behind the end appends. */
  function InsertAt(lines: seq<string>, index: nat, value: string): seq<string> {
    var i := Min(index, |lines|);
    lines[..i] + [value] + lines[i..]
  }

  function RemoveAt(lines: seq<string>, index: nat): seq<string> {
    if index < |lines| then lines[..index] + lines[index + 1..] else lines
  }

  function Walk(lines: seq<string>, index: nat, hunk: seq<HunkLine>): seq<string>
    decreases |hunk|
  {
    if hunk == [] then lines
    else
      match hunk[0].kind
      case Context => Walk(lines, index + 1, hunk[1..])
      case Remove => Walk(RemoveAt(lines, index), index, hunk[1..])
      case Add => Walk(InsertAt(lines, index, hunk[0].value), index + 1, hunk[1..])
  }

  lemma ContextMovesOn(front: seq<string>, value: string, rest: seq<string>, back: seq<string>)
    ensures front + ([value] + rest) + back == (front + [value]) + rest + back
  {
  }

  lemma RemoveCutsHead(front: seq<string>, value: string, rest: seq<string>, back: seq<string>)
    ensures RemoveAt(front + ([value] + rest) + back, |front|) == front + rest + back
  {
  }

  lemma InsertPutsHead(front: seq<string>, value: string, rest: seq<string>, back: seq<string>)
    ensures InsertAt(front + rest + back, |front|, value) == (front + [value]) + rest + back
  {
  }

  /** Walking a hunk over a window that holds its old side puts its new side there and touches nothing else. */
  lemma {:induction false} WalkReplacesWindow(front: seq<string>, back: seq<string>, hunk: seq<HunkLine>)
    ensures Walk(front + OldSide(hunk) + back, |front|, hunk) == front + NewSide(hunk) + back
    decreases |hunk|
  {
    if hunk != [] {
      var head, rest := hunk[0], hunk[1..];
      match head.kind
      case Context =>
        ContextMovesOn(front, head.value, OldSide(rest), back);
        WalkReplacesWindow(front + [head.value], back, rest);
        ContextMovesOn(front, head.value, NewSide(rest), back);
      case Remove =>
        RemoveCutsHead(front, head.value, OldSide(rest), back);
        WalkReplacesWindow(front, back, rest);
        assert NewSide(hunk) == NewSide(rest);
      case Add =>
        assert OldSide(hunk) == OldSide(rest);
        InsertPutsHead(front, head.value, OldSide(rest), back);
        WalkReplacesWindow(front + [head.value], back, rest);
        ContextMovesOn(front, head.value, NewSide(rest), back);
    }
  }

  function Growth(hunk: seq<HunkLine>): int {
    if hunk == [] then 0
    else Growth(hunk[1..]) + (match hunk[0].kind case Context => 0 case Add => 1 case Remove => -1)
  }

  lemma {:induction false} GrowthIsDifference(hunk: seq<HunkLine>)
    ensures Growth(hunk) == |NewSide(hunk)| - |OldSide(hunk)|
  {
    if hunk != [] {
      GrowthIsDifference(hunk[1..]);
    }
  }

  // ----- all hunks -----

  function Preferred(lines: seq<string>, hunk: Hunk, offset: int): Option<int> {
    if hunk.oldStart.None? then None
    else Some(Min(|lines|, Max(0, hunk.oldStart.value - 1 + offset)))
  }

  datatype Progress = Progress(lines: seq<string>, offset: int, issues: seq<Issue>)

  /** The hunks from number `n` on; a hunk that is refused leaves the lines alone. */
  function ApplyFrom(p: Progress, hunks: seq<Hunk>, n: nat): Progress
    requires n <= |hunks|
    decreases |hunks| - n
  {
    if n == |hunks| then p else ApplyFrom(ApplyOne(p, hunks[n], n), hunks, n + 1)
  }

  function ApplyOne(p: Progress, hunk: Hunk, n: nat): Progress {
    match Locate(p.lines, OldSide(hunk.lines), Preferred(p.lines, hunk, p.offset))
    case At(position) =>
      p.(lines := Walk(p.lines, position, hunk.lines), offset := p.offset + Growth(hunk.lines))
    case NotFound => p.(issues := p.issues + [ContextNotFound(n)])
    case Ambiguous(candidates) => p.(issues := p.issues + [ContextAmbiguous(n, candidates)])
  }

  function ApplyHunks(original: string, hunks: seq<Hunk>): Outcome {
    var split := SplitPatchLines(original);
    var end := ApplyFrom(Progress(split.lines, 0, []), hunks, 0);
    if end.issues != [] then Rejected(end.issues)
    else Applied(JoinPatchLines(original, split, end.lines))
  }

  // ----- several hunks at once -----

  /** The hunks state their lines, which match the original there, one behind the other and not empty. */
  predicate InPlace(lines: seq<string>, hunks: seq<Hunk>, n: nat, from: nat)
    requires n <= |hunks|
    decreases |hunks| - n
  {
    n == |hunks| ||
    (var start, oldSide := StartOf(hunks[n]), OldSide(hunks[n].lines);
     && hunks[n].oldStart.Some? && 0 < hunks[n].oldStart.value
     && oldSide != [] && from <= start
     && MatchesAt(lines, oldSide, start)
     && InPlace(lines, hunks, n + 1, start + |oldSide|))
  }

  function StartOf(hunk: Hunk): nat {
    if hunk.oldStart.Some? && 0 < hunk.oldStart.value then hunk.oldStart.value - 1 else 0
  }

  /** All windows of the original replaced at the same time. */
  function ReplacedTogether(lines: seq<string>, hunks: seq<Hunk>, n: nat, from: nat): seq<string>
    requires n <= |hunks| && from <= |lines| && InPlace(lines, hunks, n, from)
    decreases |hunks| - n
  {
    if n == |hunks| then lines[from..]
    else
      var start, oldSide := StartOf(hunks[n]), OldSide(hunks[n].lines);
      lines[from..start] + NewSide(hunks[n].lines) + ReplacedTogether(lines, hunks, n + 1, start + |oldSide|)
  }

  /**
   The running offset keeps every preferred position exact: when the lines before `from` have become
   `done`, the next hunk is found `offset` lines away from where it stood in the original.
   */
  lemma NextHunkIsWhereExpected(lines: seq<string>, done: seq<string>, from: nat, p: Progress, hunks: seq<Hunk>, n: nat)
    requires n < |hunks| && from <= |lines| && InPlace(lines, hunks, n, from)
    requires p.lines == done + lines[from..] && |done| == from + p.offset
    ensures var start, oldSide := StartOf(hunks[n]), OldSide(hunks[n].lines);
            && Locate(p.lines, oldSide, Preferred(p.lines, hunks[n], p.offset)) == At(start + p.offset)
            && ApplyOne(p, hunks[n], n) ==
                 p.(lines := done + lines[from..start] + NewSide(hunks[n].lines) + lines[start + |oldSide|..],
                    offset := p.offset + |NewSide(hunks[n].lines)| - |oldSide|)
  {
    var start, oldSide := StartOf(hunks[n]), OldSide(hunks[n].lines);
    var front, back := done + lines[from..start], lines[start + |oldSide|..];
    assert lines[from..] == lines[from..start] + oldSide + back;
    assert p.lines == front + oldSide + back;
    assert MatchesAt(p.lines, oldSide, |front|);
    WalkReplacesWindow(front, back, hunks[n].lines);
    GrowthIsDifference(hunks[n].lines);
  }

  lemma Regroup(a: seq<string>, b: seq<string>, c: seq<string>, d: seq<string>)
    ensures a + (b + c + d) == (a + b + c) + d
  {
  }

  /** One hunk further: what is done grows by the gap and the new side, and the rest stays in place. */
  lemma HunkFurther(lines: seq<string>, done: seq<string>, from: nat, p: Progress, hunks: seq<Hunk>, n: nat)
    returns (grown: seq<string>, behind: nat, next: Progress)
    requires n < |hunks| && from <= |lines| && InPlace(lines, hunks, n, from)
    requires p.lines == done + lines[from..] && |done| == from + p.offset
    ensures ApplyFrom(p, hunks, n) == ApplyFrom(next, hunks, n + 1)
    ensures behind <= |lines| && InPlace(lines, hunks, n + 1, behind)
    ensures next.lines == grown + lines[behind..] && |grown| == behind + next.offset && next.issues == p.issues
    ensures done + ReplacedTogether(lines, hunks, n, from) == grown + ReplacedTogether(lines, hunks, n + 1, behind)
  {
    var start, newSide := StartOf(hunks[n]), NewSide(hunks[n].lines);
    behind := start + |OldSide(hunks[n].lines)|;
    grown := done + lines[from..start] + newSide;
    next := ApplyOne(p, hunks[n], n);
    NextHunkIsWhereExpected(lines, done, from, p, hunks, n);
    assert |grown| == |done| + (start - from) + |newSide|;
    Regroup(done, lines[from..start], newSide, ReplacedTogether(lines, hunks, n + 1, behind));
  }

  /** Hunks that are in place have the effect of replacing all their windows simultaneously. */
  lemma {:induction false} HunksInPlaceReplaceTogether(lines: seq<string>, done: seq<string>, from: nat, p: Progress,
                                                       hunks: seq<Hunk>, n: nat)
    requires n <= |hunks| && from <= |lines| && InPlace(lines, hunks, n, from)
    requires p.lines == done + lines[from..] && |done| == from + p.offset
    ensures ApplyFrom(p, hunks, n).lines == done + ReplacedTogether(lines, hunks, n, from)
    ensures ApplyFrom(p, hunks, n).issues == p.issues
    decreases |hunks| - n
  {
    if n < |hunks| {
      var grown, behind, next := HunkFurther(lines, done, from, p, hunks, n);
      HunksInPlaceReplaceTogether(lines, grown, behind, next, hunks, n + 1);
    }
  }

  /** `applyHunks` on hunks that are in place: never refused, and all windows replaced at once. */
  lemma ApplyHunksReplacesTogether(original: string, hunks: seq<Hunk>)
    requires InPlace(SplitPatchLines(original).lines, hunks, 0, 0)
    ensures var split := SplitPatchLines(original);
            ApplyHunks(original, hunks) ==
              Applied(JoinPatchLines(original, split, ReplacedTogether(split.lines, hunks, 0, 0)))
  {
    var lines := SplitPatchLines(original).lines;
    assert [] + lines[0..] == lines;
    assert [] + ReplacedTogether(lines, hunks, 0, 0) == ReplacedTogether(lines, hunks, 0, 0);
    HunksInPlaceReplaceTogether(lines, [], 0, Progress(lines, 0, []), hunks, 0);
  }

  // ----- the loops -----

  method FindHunkPosition(lines: seq<string>, pattern: seq<string>, preferred: Option<int>) returns (location: Location)
    ensures location == Locate(lines, pattern, preferred)
  {
    if pattern == [] {
      return At(Max(0, Min(|lines|, if preferred.Some? then preferred.value else |lines|)));
    }
    if preferred.Some? && MatchesAt(lines, pattern, preferred.value) {
      return At(preferred.value);
    }
    var candidates: seq<nat> := [];
    var position := 0;
    while position + |pattern| <= |lines|
      invariant candidates + Candidates(lines, pattern, position) == Candidates(lines, pattern, 0)
      decreases |lines| - position
    {
      CandidatesFurther(lines, pattern, position, candidates);
      if MatchesAt(lines, pattern, position) {
        candidates := candidates + [position];
      }
      position := position + 1;
    }
    if |candidates| == 1 {
      return At(candidates[0]);
    }
    location := if candidates == [] then NotFound else Ambiguous(candidates);
  }

  /** The inner loop: context moves on, removals cut a line out, additions put one in. */
  method SpliceHunk(start: seq<string>, position: nat, hunk: seq<HunkLine>) returns (lines: seq<string>, growth: int)
    ensures lines == Walk(start, position, hunk) && growth == Growth(hunk)
  {
    lines := start;
    var index, added, removed := position, 0, 0;
    for i := 0 to |hunk|
      invariant Walk(start, position, hunk) == Walk(lines, index, hunk[i..])
      invariant added - removed + Growth(hunk[i..]) == Growth(hunk)
    {
      assert hunk[i..][1..] == hunk[i + 1..];
      match hunk[i].kind
      case Context => index := index + 1;
      case Remove =>
        lines := RemoveAt(lines, index);
        removed := removed + 1;
      case Add =>
        lines := InsertAt(lines, index, hunk[i].value);
        index := index + 1;
        added := added + 1;
    }
    growth := added - removed;
  }

  method ApplyAllHunks(original: string, hunks: seq<Hunk>) returns (outcome: Outcome)
    ensures outcome == ApplyHunks(original, hunks)
  {
    var split := SplitPatchLines(original);
    var lines, offset, issues := split.lines, 0, [];
    for n := 0 to |hunks|
      invariant ApplyFrom(Progress(split.lines, 0, []), hunks, 0)
             == ApplyFrom(Progress(lines, offset, issues), hunks, n)
    {
      ghost var before := Progress(lines, offset, issues);
      var hunk := hunks[n];
      var location := FindHunkPosition(lines, OldSide(hunk.lines), Preferred(lines, hunk, offset));
      match location {
        case At(position) =>
          var growth;
          lines, growth := SpliceHunk(lines, position, hunk.lines);
          offset := offset + growth;
        case NotFound => issues := issues + [ContextNotFound(n)];
        case Ambiguous(candidates) => issues := issues + [ContextAmbiguous(n, candidates)];
      }
      assert Progress(lines, offset, issues) == ApplyOne(before, hunk, n);
    }
    outcome := if issues != [] then Rejected(issues) else Applied(JoinPatchLines(original, split, lines));
  }
}
