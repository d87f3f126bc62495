/** What applying a patch does hunk by hunk: where each hunk goes, which are refused and what is left in the end. */
module PatchCourse {
  import opened Options
  import opened PatchApply

  // ----- one hunk -----

  /** The line a hunk states, moved by the growth so far and kept within the text. */
  predicate IsStated(lines: seq<string>, hunk: Hunk, offset: int, position: nat) {
    && hunk.oldStart.Some?
    && var line := hunk.oldStart.value - 1 + offset;
       if line < 0 then position == 0 else if |lines| < line then position == |lines| else position == line
  }

  /**
   A hunk with lines to find goes where it says, or else to the only place with those lines; a mere
   addition goes where it says, or else to the end.
   */
  ghost predicate GoesTo(lines: seq<string>, hunk: Hunk, offset: int, position: nat) {
    var oldSide := OldSide(hunk.lines);
    && MatchesAt(lines, oldSide, position)
    && (IsStated(lines, hunk, offset, position)
        || (if oldSide == [] then hunk.oldStart.None? && position == |lines|
            else forall other: nat :: MatchesAt(lines, oldSide, other) ==> other == position))
  }

  /** Exactly the places with the lines of a hunk, in ascending order. */
  predicate ArePlaces(lines: seq<string>, pattern: seq<string>, places: seq<nat>) {
    && (forall i, j :: 0 <= i < j < |places| ==> places[i] < places[j])
    && (forall place :: place in places ==> MatchesAt(lines, pattern, place))
    && (forall place :: 0 <= place <= |lines| && MatchesAt(lines, pattern, place) ==> place in places)
  }

  /** Why hunk number `n` goes nowhere: no place has its lines, or several have, but not the stated one. */
  ghost predicate IsRefused(lines: seq<string>, hunk: Hunk, offset: int, n: nat, issue: Issue) {
    var oldSide := OldSide(hunk.lines);
    && oldSide != []
    && match issue
       case ContextNotFound(number) => number == n && ArePlaces(lines, oldSide, [])
       case ContextAmbiguous(number, places) =>
         && number == n && 2 <= |places| && ArePlaces(lines, oldSide, places)
         && forall place :: place in places ==> !IsStated(lines, hunk, offset, place)
  }

  /** The window of a hunk replaced by its new side; what was refused so far stays on record. */
  function PutIn(p: Progress, hunk: Hunk, position: nat): Progress
    requires MatchesAt(p.lines, OldSide(hunk.lines), position)
  {
    var oldSide, newSide := OldSide(hunk.lines), NewSide(hunk.lines);
    Progress(p.lines[..position] + newSide + p.lines[position + |oldSide|..],
             p.offset + |newSide| - |oldSide|, p.issues)
  }

  ghost predicate IsStep(p: Progress, hunk: Hunk, n: nat, next: Progress) {
    || (exists position: nat ::
          GoesTo(p.lines, hunk, p.offset, position) && next == PutIn(p, hunk, position))
    || (exists issue :: IsRefused(p.lines, hunk, p.offset, n, issue) && next == p.(issues := p.issues + [issue]))
  }

  // ----- the place of a hunk -----

  /** In ascending order from `from` on. */
  predicate Ascends(places: seq<nat>, from: nat) {
    && (forall i :: 0 <= i < |places| ==> from <= places[i])
    && (forall i, j :: 0 <= i < j < |places| ==> places[i] < places[j])
  }

  lemma {:induction false} CandidatesAscend(lines: seq<string>, pattern: seq<string>, from: nat)
    ensures Ascends(Candidates(lines, pattern, from), from)
    decreases |lines| - from
  {
    if from + |pattern| <= |lines| && from < |lines| {
      CandidatesAscend(lines, pattern, from + 1);
      var later := Candidates(lines, pattern, from + 1);
      var first: seq<nat> := if MatchesAt(lines, pattern, from) then [from] else [];
      assert Candidates(lines, pattern, from) == first + later;
    }
  }

  lemma CandidatesArePlaces(lines: seq<string>, pattern: seq<string>)
    requires pattern != []
    ensures ArePlaces(lines, pattern, Candidates(lines, pattern, 0))
  {
    CandidatesAscend(lines, pattern, 0);
    forall place: nat
      ensures place in Candidates(lines, pattern, 0) <==> MatchesAt(lines, pattern, place)
    {
      CandidatesAreMatches(lines, pattern, 0, place);
    }
  }

  lemma SolePlace(lines: seq<string>, pattern: seq<string>, places: seq<nat>)
    requires |places| == 1 && ArePlaces(lines, pattern, places)
    ensures MatchesAt(lines, pattern, places[0])
    ensures forall other: nat :: MatchesAt(lines, pattern, other) ==> other == places[0]
  {
    assert places[0] in places;
  }

  lemma StatedIsPreferred(lines: seq<string>, hunk: Hunk, offset: int, position: nat)
    ensures IsStated(lines, hunk, offset, position) <==> Preferred(lines, hunk, offset) == Some(position)
  {
  }

  lemma LocatedGoesTo(lines: seq<string>, hunk: Hunk, offset: int, position: nat)
    requires Locate(lines, OldSide(hunk.lines), Preferred(lines, hunk, offset)) == At(position)
    ensures GoesTo(lines, hunk, offset, position)
  {
    var oldSide := OldSide(hunk.lines);
    StatedIsPreferred(lines, hunk, offset, position);
    if oldSide != [] {
      var places := Candidates(lines, oldSide, 0);
      CandidatesArePlaces(lines, oldSide);
      if |places| == 1 {
        SolePlace(lines, oldSide, places);
      }
    }
  }

  lemma UnlocatedIsRefused(lines: seq<string>, hunk: Hunk, offset: int, n: nat, issue: Issue)
    requires var location := Locate(lines, OldSide(hunk.lines), Preferred(lines, hunk, offset));
             || (location == NotFound && issue == ContextNotFound(n))
             || (location.Ambiguous? && issue == ContextAmbiguous(n, location.candidates))
    ensures IsRefused(lines, hunk, offset, n, issue)
  {
    var oldSide := OldSide(hunk.lines);
    CandidatesArePlaces(lines, oldSide);
    forall place | place in Candidates(lines, oldSide, 0)
      ensures MatchesAt(lines, oldSide, place)
      ensures IsStated(lines, hunk, offset, place) ==> Preferred(lines, hunk, offset) == Some(place)
    {
      StatedIsPreferred(lines, hunk, offset, place);
    }
  }

  lemma HunkPutsIn(p: Progress, hunk: Hunk, position: nat)
    requires MatchesAt(p.lines, OldSide(hunk.lines), position)
    ensures PutIn(p, hunk, position)
         == p.(lines := Walk(p.lines, position, hunk.lines), offset := p.offset + Growth(hunk.lines))
  {
    var oldSide := OldSide(hunk.lines);
    var front, back := p.lines[..position], p.lines[position + |oldSide|..];
    assert p.lines == front + oldSide + back;
    WalkReplacesWindow(front, back, hunk.lines);
    GrowthIsDifference(hunk.lines);
  }

  lemma OneHunkIsStep(p: Progress, hunk: Hunk, n: nat)
    ensures IsStep(p, hunk, n, ApplyOne(p, hunk, n))
  {
    match Locate(p.lines, OldSide(hunk.lines), Preferred(p.lines, hunk, p.offset))
    case At(position) =>
      LocatedGoesTo(p.lines, hunk, p.offset, position);
      HunkPutsIn(p, hunk, position);
    case NotFound =>
      UnlocatedIsRefused(p.lines, hunk, p.offset, n, ContextNotFound(n));
    case Ambiguous(candidates) =>
      UnlocatedIsRefused(p.lines, hunk, p.offset, n, ContextAmbiguous(n, candidates));
  }

  // ----- all hunks -----

  /** The states between the hunks. */
  ghost predicate IsCourse(course: seq<Progress>, hunks: seq<Hunk>, from: nat) {
    && from <= |hunks| && |course| == |hunks| - from + 1
    && forall n :: 0 <= n < |hunks| - from ==> IsStep(course[n], hunks[from + n], from + n, course[n + 1])
  }

  lemma CourseFurther(p: Progress, hunks: seq<Hunk>, from: nat, rest: seq<Progress>) returns (course: seq<Progress>)
    requires from < |hunks| && IsCourse(rest, hunks, from + 1)
    requires IsStep(p, hunks[from], from, rest[0])
    ensures IsCourse(course, hunks, from) && course == [p] + rest
  {
    course := [p] + rest;
    forall n: nat | n < |hunks| - from
      ensures IsStep(course[n], hunks[from + n], from + n, course[n + 1])
    {
      if 0 < n {
        var k: nat := n - 1;
        assert IsStep(rest[k], hunks[from + 1 + k], from + 1 + k, rest[k + 1]);
      }
    }
  }

  lemma {:induction false} HunksTakeCourse(p: Progress, hunks: seq<Hunk>, from: nat) returns (course: seq<Progress>)
    requires from <= |hunks|
    ensures IsCourse(course, hunks, from)
    ensures course[0] == p && course[|course| - 1] == ApplyFrom(p, hunks, from)
    decreases |hunks| - from
  {
    if from == |hunks| {
      course := [p];
    } else {
      OneHunkIsStep(p, hunks[from], from);
      var rest := HunksTakeCourse(ApplyOne(p, hunks[from], from), hunks, from + 1);
      course := CourseFurther(p, hunks, from, rest);
    }
  }

  /**
   Applying a patch: the hunks go to their places one after the other, a refused one is skipped and
   recorded, and the text is given exactly when none was refused.
   */
  lemma {:induction false} PatchTakesCourse(original: string, hunks: seq<Hunk>) returns (course: seq<Progress>)
    ensures IsCourse(course, hunks, 0)
    ensures course[0] == Progress(SplitPatchLines(original).lines, 0, [])
    ensures var end := course[|hunks|];
            match ApplyHunks(original, hunks)
            case Rejected(issues) => issues != [] && issues == end.issues
            case Applied(text) =>
              end.issues == [] && text == JoinPatchLines(original, SplitPatchLines(original), end.lines)
  {
    course := HunksTakeCourse(Progress(SplitPatchLines(original).lines, 0, []), hunks, 0);
  }

  lemma PlacesAreMany(lines: seq<string>, pattern: seq<string>, places: seq<nat>, place: nat)
    requires 2 <= |places| && ArePlaces(lines, pattern, places)
    ensures exists other: nat :: MatchesAt(lines, pattern, other) && other != place
  {
    assert places[0] in places && places[1] in places && places[0] < places[1];
  }

  /** A hunk has at most one place to go to, and with such a place it is not refused. */
  lemma PlaceIsDecided(lines: seq<string>, hunk: Hunk, offset: int, place: nat, other: nat, n: nat, issue: Issue)
    requires GoesTo(lines, hunk, offset, place)
    ensures GoesTo(lines, hunk, offset, other) ==> other == place
    ensures !IsRefused(lines, hunk, offset, n, issue)
  {
    var oldSide := OldSide(hunk.lines);
    if issue.ContextAmbiguous? && 2 <= |issue.candidates| && ArePlaces(lines, oldSide, issue.candidates) {
      PlacesAreMany(lines, oldSide, issue.candidates, place);
    }
  }
}
