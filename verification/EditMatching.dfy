/**
 Finding the targets of text edits. A target is a pattern in which a newline stands for either line ending and, if
 so asked, blanks stand for any blanks; the matches are those of a regular expression, from left to right, and pass
 the edit's context guards.
 */
module EditMatching {
  import opened Options
  import opened TextLines
  import opened EditContract
  import opened NewlineStyle
  import opened LineRanges
  import opened TextEdits
  import opened EditGuarantees

  // ----- patterns -----

  datatype Token = Literal(c: char) | AnyNewline | Blanks

  type Pattern = seq<Token>

  /** `textPattern`. */
  function PatternOf(target: string, flexible: bool): Pattern
    decreases |target|
  {
    if target == "" then []
    else if flexible && IsSpace(target[0]) then [Blanks] + PatternOf(target[SpaceRun(target)..], flexible)
    else if 2 <= |target| && target[0] == '\r' && target[1] == '\n' then [AnyNewline] + PatternOf(target[2..], flexible)
    else [if target[0] == '\n' then AnyNewline else Literal(target[0])] + PatternOf(target[1..], flexible)
  }

  predicate AllBlank(text: string, i: nat, j: nat) {
    j <= |text| && forall k :: i <= k < j ==> IsSpace(text[k])
  }

  /** What the pattern means as a regular expression: it can stand for the text from `i` to `j`. */
  ghost predicate Means(pattern: Pattern, text: string, i: nat, j: nat)
    decreases |pattern|
  {
    i <= j <= |text| &&
    if pattern == [] then i == j
    else
      match pattern[0]
      case Literal(c) => i < |text| && text[i] == c && Means(pattern[1..], text, i + 1, j)
      case AnyNewline =>
        || (i < |text| && text[i] == '\n' && Means(pattern[1..], text, i + 1, j))
        || (i + 1 < |text| && text[i] == '\r' && text[i + 1] == '\n' && Means(pattern[1..], text, i + 2, j))
      case Blanks => exists k: nat :: i < k && AllBlank(text, i, k) && Means(pattern[1..], text, k, j)
  }

  /** The match that begins at `i`: an optional carriage return is taken and blanks are taken as far as they go. */
  function MatchEnd(pattern: Pattern, text: string, i: nat): (end: Option<nat>)
    requires i <= |text|
    ensures end.Some? ==> i <= end.value <= |text|
    decreases |pattern|
  {
    if pattern == [] then Some(i)
    else
      match pattern[0]
      case Literal(c) => if i < |text| && text[i] == c then MatchEnd(pattern[1..], text, i + 1) else None
      case AnyNewline =>
        if i + 1 < |text| && text[i] == '\r' && text[i + 1] == '\n' then MatchEnd(pattern[1..], text, i + 2)
        else if i < |text| && text[i] == '\n' then MatchEnd(pattern[1..], text, i + 1)
        else None
      case Blanks =>
        if SpaceRun(text[i..]) == 0 then None else MatchEnd(pattern[1..], text, i + SpaceRun(text[i..]))
  }

  /** Nothing behind blanks is a blank again, so they are never taken too far. */
  predicate IsCrisp(pattern: Pattern) {
    forall k :: 0 <= k < |pattern| - 1 && pattern[k].Blanks? ==>
      pattern[k + 1].Literal? && !IsSpace(pattern[k + 1].c)
  }

  lemma {:induction false} SpaceRunEnds(text: string)
    ensures var n := SpaceRun(text);
            (forall k :: 0 <= k < n ==> IsSpace(text[k])) && (n < |text| ==> !IsSpace(text[n]))
  {
    if text != "" && IsSpace(text[0]) {
      SpaceRunEnds(text[1..]);
      assert forall k :: 0 < k < SpaceRun(text) ==> text[k] == text[1..][k - 1];
    }
  }

  lemma {:induction false} PatternsAreCrisp(target: string, flexible: bool)
    ensures IsCrisp(PatternOf(target, flexible))
    ensures flexible && target != "" && !IsSpace(target[0]) ==>
              PatternOf(target, flexible)[0] == Literal(target[0])
    ensures target != "" ==> PatternOf(target, flexible) != []
    ensures !flexible ==> Blanks !in PatternOf(target, flexible)
    decreases |target|
  {
    if target != "" {
      var n := SpaceRun(target);
      assert IsSpace('\r') && IsSpace('\n');
      if flexible && IsSpace(target[0]) {
        SpaceRunEnds(target);
        PatternsAreCrisp(target[n..], flexible);
      } else if 2 <= |target| && target[0] == '\r' && target[1] == '\n' {
        PatternsAreCrisp(target[2..], flexible);
      } else {
        PatternsAreCrisp(target[1..], flexible);
      }
    }
  }

  lemma CrispRest(pattern: Pattern)
    requires IsCrisp(pattern) && pattern != []
    ensures IsCrisp(pattern[1..])
  {
    forall k | 0 <= k < |pattern[1..]| - 1 && pattern[1..][k].Blanks?
      ensures pattern[1..][k + 1].Literal? && !IsSpace(pattern[1..][k + 1].c)
    {
      assert pattern[1..][k] == pattern[k + 1] && pattern[1..][k + 1] == pattern[k + 2];
    }
  }

  lemma BlankRunAt(text: string, i: nat, k: nat)
    requires i < k && i <= |text| && AllBlank(text, i, k)
    ensures var n := SpaceRun(text[i..]);
            && k <= i + n && AllBlank(text, i, i + n)
            && (k < i + n ==> IsSpace(text[k])) && (i + n < |text| ==> !IsSpace(text[i + n]))
  {
    var n := SpaceRun(text[i..]);
    SpaceRunEnds(text[i..]);
    assert forall m :: 0 <= m < |text| - i ==> text[i..][m] == text[i + m];
  }

  /** The match that is found is one of the pattern's meanings. */
  lemma {:induction false} MatchIsMeant(pattern: Pattern, text: string, i: nat)
    requires i <= |text| && MatchEnd(pattern, text, i).Some?
    ensures Means(pattern, text, i, MatchEnd(pattern, text, i).value)
    decreases |pattern|
  {
    if pattern != [] {
      match pattern[0]
      case Literal(_) => MatchIsMeant(pattern[1..], text, i + 1);
      case AnyNewline =>
        MatchIsMeant(pattern[1..], text, if text[i] == '\n' then i + 1 else i + 2);
      case Blanks =>
        var k := i + SpaceRun(text[i..]);
        SpaceRunEnds(text[i..]);
        assert forall m :: i <= m < k ==> text[m] == text[i..][m - i];
        MatchIsMeant(pattern[1..], text, k);
    }
  }

  /** Whatever the pattern can stand for there, the match that is found is at least as long. */
  lemma {:induction false} MatchIsLongest(pattern: Pattern, text: string, i: nat, j: nat)
    requires IsCrisp(pattern) && Means(pattern, text, i, j)
    ensures MatchEnd(pattern, text, i).Some? && j <= MatchEnd(pattern, text, i).value
    decreases |pattern|
  {
    if pattern != [] {
      CrispRest(pattern);
      match pattern[0]
      case Literal(_) => MatchIsLongest(pattern[1..], text, i + 1, j);
      case AnyNewline => MatchIsLongest(pattern[1..], text, if text[i] == '\n' then i + 1 else i + 2, j);
      case Blanks => BlanksAreLongest(pattern, text, i, j);
    }
  }

  lemma {:induction false} BlanksAreLongest(pattern: Pattern, text: string, i: nat, j: nat)
    requires IsCrisp(pattern) && pattern != [] && pattern[0] == Blanks && Means(pattern, text, i, j)
    ensures MatchEnd(pattern, text, i).Some? && j <= MatchEnd(pattern, text, i).value
    decreases |pattern|, 0
  {
    var k: nat :| i < k && AllBlank(text, i, k) && Means(pattern[1..], text, k, j);
    var n := SpaceRun(text[i..]);
    CrispRest(pattern);
    BlankRunAt(text, i, k);
    if 1 < |pattern| {
      assert pattern[1..][0] == pattern[1] && pattern[0].Blanks?;
      MatchIsLongest(pattern[1..], text, k, j);
    } else {
      assert pattern[1..] == [];
    }
  }

  lemma {:induction false} MatchGrows(pattern: Pattern, text: string, i: nat)
    requires i <= |text| && pattern != [] && MatchEnd(pattern, text, i).Some?
    ensures i < MatchEnd(pattern, text, i).value
  {
  }

  // ----- all matches -----

  /** `matchAll` from a position on: each match begins as early as it can, behind the one before. */
  function FindFrom(pattern: Pattern, text: string, from: nat): seq<Range>
    requires from <= |text|
    decreases |text| - from
  {
    if from == |text| then []
    else
      match MatchEnd(pattern, text, from)
      case None => FindFrom(pattern, text, from + 1)
      case Some(end) =>
        if end == from then FindFrom(pattern, text, from + 1) else [Range(from, end)] + FindFrom(pattern, text, end)
  }

  /** Some text in front of the position that the pattern can stand for ends there. */
  predicate FitsBefore(pattern: Pattern, text: string, start: nat)
    requires start <= |text|
  {
    exists s :: 0 <= s <= start && MatchEnd(pattern, text[..start], s) == Some(start)
  }

  predicate FitsAfter(pattern: Pattern, text: string, end: nat)
    requires end <= |text|
  {
    MatchEnd(pattern, text[end..], 0).Some?
  }

  /** `contextMatches`. */
  predicate PassesGuards(text: string, e: Edit, range: Range)
    requires e.IsTextEdit() && range.start <= range.end <= |text|
  {
    && (e.guards.beforeContext.Some? ==>
          FitsBefore(PatternOf(e.guards.beforeContext.value, e.guards.flexibleWhitespace), text, range.start))
    && (e.guards.afterContext.Some? ==>
          FitsAfter(PatternOf(e.guards.afterContext.value, e.guards.flexibleWhitespace), text, range.end))
  }

  function Guard(text: string, e: Edit): Range -> bool
    requires e.IsTextEdit()
  {
    (range: Range) => range.start <= range.end <= |text| && PassesGuards(text, e, range)
  }

  function Kept(ranges: seq<Range>, keep: Range -> bool): seq<Range> {
    if ranges == [] then [] else (if keep(ranges[0]) then [ranges[0]] else []) + Kept(ranges[1..], keep)
  }

  function EditPattern(e: Edit): Pattern
    requires e.IsTextEdit()
  {
    PatternOf(Target(e), e.guards.flexibleWhitespace)
  }

  function MatchesIn(text: string, e: Edit, search: Range): seq<Range> {
    if !e.IsTextEdit() || !(search.start <= search.end <= |text|) then []
    else Kept(FindFrom(EditPattern(e), text[..search.end], search.start), Guard(text, e))
  }

  /** `textRanges` as the function the edit engine works with. */
  function Matching(): Matcher {
    (text: string, e: Edit, search: Range) => MatchesIn(text, e, search)
  }

  lemma KeptFurther(found: seq<Range>, range: Range, rest: seq<Range>, keep: Range -> bool)
    ensures found + Kept([range] + rest, keep)
         == (if keep(range) then found + [range] else found) + Kept(rest, keep)
  {
    assert ([range] + rest)[1..] == rest;
    if keep(range) {
      assert found + ([range] + Kept(rest, keep)) == found + [range] + Kept(rest, keep);
    } else {
      assert [] + Kept(rest, keep) == Kept(rest, keep);
    }
  }

  /** One position, or one match, further. */
  lemma LoopFurther(pattern: Pattern, window: string, from: nat, found: seq<Range>, keep: Range -> bool)
    requires from < |window|
    ensures var end := MatchEnd(pattern, window, from);
            found + Kept(FindFrom(pattern, window, from), keep) ==
              if end.None? || end.value == from then found + Kept(FindFrom(pattern, window, from + 1), keep)
              else
                var range := Range(from, end.value);
                (if keep(range) then found + [range] else found) + Kept(FindFrom(pattern, window, end.value), keep)
  {
    var end := MatchEnd(pattern, window, from);
    if end.Some? && end.value != from {
      KeptFurther(found, Range(from, end.value), FindFrom(pattern, window, end.value), keep);
    }
  }

  /** The loop over the matches in the window that is searched, each checked against the context of the whole text. */
  method FindMatches(text: string, e: Edit, search: Range) returns (ranges: seq<Range>)
    requires e.IsTextEdit() && search.start <= search.end <= |text|
    ensures ranges == Matching()(text, e, search)
  {
    var pattern, window, keep := EditPattern(e), text[..search.end], Guard(text, e);
    ghost var all := Kept(FindFrom(pattern, window, search.start), keep);
    ranges := [];
    var from := search.start;
    assert [] + all == all;
    while from < |window|
      invariant from <= |window| && ranges + Kept(FindFrom(pattern, window, from), keep) == all
      decreases |window| - from
    {
      LoopFurther(pattern, window, from, ranges, keep);
      var end := MatchEnd(pattern, window, from);
      if end.None? || end.value == from {
        from := from + 1;
      } else {
        if keep(Range(from, end.value)) {
          ranges := ranges + [Range(from, end.value)];
        }
        from := end.value;
      }
    }
  }

  // ----- exactly the matches -----

  /** Not empty, one behind the other, between two positions. */
  predicate AreDisjoint(ranges: seq<Range>, from: nat, upTo: nat) {
    && (forall k :: 0 <= k < |ranges| ==> from <= ranges[k].start < ranges[k].end <= upTo)
    && (forall k, m :: 0 <= k < m < |ranges| ==> ranges[k].end <= ranges[m].start)
  }

  /** As long as the pattern can stand for it from there. */
  ghost predicate IsLongest(pattern: Pattern, text: string, range: Range) {
    && Means(pattern, text, range.start, range.end)
    && forall j: nat :: Means(pattern, text, range.start, j) ==> j <= range.end
  }

  predicate Covers(ranges: seq<Range>, i: nat) {
    exists k :: 0 <= k < |ranges| && ranges[k].start <= i < ranges[k].end
  }

  /** The longest matches from left to right; whatever the pattern can stand for begins inside one of them. */
  ghost predicate AreMatches(pattern: Pattern, text: string, from: nat, ranges: seq<Range>) {
    && AreDisjoint(ranges, from, |text|)
    && (forall k :: 0 <= k < |ranges| ==> IsLongest(pattern, text, ranges[k]))
    && (forall i: nat, j: nat :: from <= i && Means(pattern, text, i, j) ==> Covers(ranges, i))
  }

  lemma NothingAtEnd(pattern: Pattern, text: string)
    requires pattern != []
    ensures forall i: nat, j: nat :: Means(pattern, text, i, j) ==> i < |text|
  {
  }

  lemma FoundIsLongest(pattern: Pattern, text: string, from: nat, end: nat)
    requires IsCrisp(pattern) && from <= |text| && MatchEnd(pattern, text, from) == Some(end)
    ensures IsLongest(pattern, text, Range(from, end))
  {
    MatchIsMeant(pattern, text, from);
    forall j: nat | Means(pattern, text, from, j)
      ensures j <= end
    {
      MatchIsLongest(pattern, text, from, j);
    }
  }

  lemma DisjointInFront(range: Range, rest: seq<Range>, from: nat, upTo: nat)
    requires from <= range.start < range.end <= upTo && AreDisjoint(rest, range.end, upTo)
    ensures AreDisjoint([range] + rest, from, upTo) && AreDisjoint(rest, from, upTo) && [] + rest == rest
  {
    assert forall k :: 0 < k < |[range] + rest| ==> ([range] + rest)[k] == rest[k - 1];
  }

  lemma CoversInFront(range: Range, rest: seq<Range>, i: nat)
    requires range.start <= i < range.end || Covers(rest, i)
    ensures Covers([range] + rest, i)
  {
    var ranges := [range] + rest;
    if range.start <= i < range.end {
      assert ranges[0].start <= i < ranges[0].end;
    } else {
      var k :| 0 <= k < |rest| && rest[k].start <= i < rest[k].end;
      assert ranges[k + 1].start <= i < ranges[k + 1].end;
    }
  }

  lemma MatchesFurther(pattern: Pattern, text: string, from: nat, end: nat, rest: seq<Range>)
    requires from < end <= |text| && IsLongest(pattern, text, Range(from, end)) && AreMatches(pattern, text, end, rest)
    ensures AreMatches(pattern, text, from, [Range(from, end)] + rest)
  {
    var range := Range(from, end);
    DisjointInFront(range, rest, from, |text|);
    forall i: nat, j: nat | from <= i && Means(pattern, text, i, j)
      ensures Covers([range] + rest, i)
    {
      CoversInFront(range, rest, i);
    }
    forall k | 0 <= k < |[range] + rest|
      ensures IsLongest(pattern, text, ([range] + rest)[k])
    {
      assert 0 < k ==> ([range] + rest)[k] == rest[k - 1];
    }
  }

  lemma {:induction false} FoundExactly(pattern: Pattern, text: string, from: nat)
    requires IsCrisp(pattern) && pattern != [] && from <= |text|
    ensures AreMatches(pattern, text, from, FindFrom(pattern, text, from))
    decreases |text| - from
  {
    if from == |text| {
      NothingAtEnd(pattern, text);
    } else if MatchEnd(pattern, text, from).Some? {
      var end := MatchEnd(pattern, text, from).value;
      MatchGrows(pattern, text, from);
      FoundIsLongest(pattern, text, from, end);
      FoundExactly(pattern, text, end);
      MatchesFurther(pattern, text, from, end, FindFrom(pattern, text, end));
    } else {
      FoundExactly(pattern, text, from + 1);
      NothingHere(pattern, text, from, FindFrom(pattern, text, from + 1));
    }
  }

  lemma NothingHere(pattern: Pattern, text: string, from: nat, ranges: seq<Range>)
    requires IsCrisp(pattern) && from < |text| && MatchEnd(pattern, text, from).None?
    requires AreMatches(pattern, text, from + 1, ranges)
    ensures AreMatches(pattern, text, from, ranges)
  {
    forall i: nat, j: nat | from <= i && Means(pattern, text, i, j)
      ensures Covers(ranges, i)
    {
      if i == from {
        MatchIsLongest(pattern, text, from, j);
      }
    }
  }

  // ----- the guards -----

  lemma MeantBeforeFits(pattern: Pattern, text: string, start: nat, s: nat)
    requires IsCrisp(pattern) && start <= |text| && Means(pattern, text[..start], s, start)
    ensures FitsBefore(pattern, text, start)
  {
    MatchIsLongest(pattern, text[..start], s, start);
  }

  lemma FitsBeforeExactly(pattern: Pattern, text: string, start: nat)
    requires IsCrisp(pattern) && start <= |text|
    ensures FitsBefore(pattern, text, start) <==> exists s: nat :: Means(pattern, text[..start], s, start)
  {
    var front := text[..start];
    if FitsBefore(pattern, text, start) {
      var s :| 0 <= s <= start && MatchEnd(pattern, front, s) == Some(start);
      MatchIsMeant(pattern, front, s);
      assert Means(pattern, front, s, start);
    } else {
      forall s: nat
        ensures !Means(pattern, front, s, start)
      {
        if Means(pattern, front, s, start) {
          MeantBeforeFits(pattern, text, start, s);
        }
      }
    }
  }

  lemma FitsAfterExactly(pattern: Pattern, text: string, end: nat)
    requires IsCrisp(pattern) && end <= |text|
    ensures FitsAfter(pattern, text, end) <==> exists j: nat :: Means(pattern, text[end..], 0, j)
  {
    var back := text[end..];
    if FitsAfter(pattern, text, end) {
      MatchIsMeant(pattern, back, 0);
      var j: nat := MatchEnd(pattern, back, 0).value;
      assert Means(pattern, text[end..], 0, j);
    } else {
      forall j: nat
        ensures !Means(pattern, back, 0, j)
      {
        if Means(pattern, back, 0, j) {
          MatchIsLongest(pattern, back, 0, j);
        }
      }
    }
  }

  lemma {:induction false} KeptOnes(ranges: seq<Range>, keep: Range -> bool)
    ensures forall range :: range in Kept(ranges, keep) <==> range in ranges && keep(range)
  {
    if ranges != [] {
      KeptOnes(ranges[1..], keep);
      assert ranges == [ranges[0]] + ranges[1..];
    }
  }

  lemma {:induction false} KeptAreDisjoint(ranges: seq<Range>, keep: Range -> bool, from: nat, upTo: nat)
    requires AreDisjoint(ranges, from, upTo)
    ensures AreDisjoint(Kept(ranges, keep), from, upTo)
    decreases |ranges|
  {
    if ranges != [] {
      var range, rest := ranges[0], ranges[1..];
      assert forall k :: 0 <= k < |rest| ==> rest[k] == ranges[k + 1];
      KeptAreDisjoint(rest, keep, range.end, upTo);
      DisjointInFront(range, Kept(rest, keep), from, upTo);
    }
  }

  lemma {:induction false} DisjointFit(ranges: seq<Range>, k: nat, upTo: nat)
    requires k <= |ranges|
    requires forall m :: 0 <= m < k ==> ranges[m].start < ranges[m].end <= upTo
    requires forall m, n :: 0 <= m < n < k ==> ranges[m].end <= ranges[n].start
    ensures RangesFit(ranges, k, upTo)
    decreases k
  {
    if 0 < k {
      DisjointFit(ranges, k - 1, ranges[k - 1].start);
    }
  }

  // ----- the matcher of the engine -----

  lemma TargetPattern(e: Edit)
    requires e.IsTextEdit()
    ensures IsCrisp(EditPattern(e)) && (Target(e) != "" ==> EditPattern(e) != [])
  {
    PatternsAreCrisp(Target(e), e.guards.flexibleWhitespace);
  }

  lemma {:induction false} EmptyPatternFindsNothing(text: string, from: nat)
    requires from <= |text|
    ensures FindFrom([], text, from) == []
    decreases |text| - from
  {
    if from < |text| {
      EmptyPatternFindsNothing(text, from + 1);
    }
  }

  lemma MatchesAreDisjoint(text: string, e: Edit, search: Range)
    requires e.IsTextEdit() && search.start <= search.end <= |text|
    ensures AreDisjoint(FindFrom(EditPattern(e), text[..search.end], search.start), search.start, search.end)
  {
    TargetPattern(e);
    if EditPattern(e) == [] {
      EmptyPatternFindsNothing(text[..search.end], search.start);
    } else {
      FoundExactly(EditPattern(e), text[..search.end], search.start);
    }
  }

  /** What the edit engine asks of its matcher holds of this one. */
  lemma MatchingIsSound()
    ensures IsSound(Matching())
  {
    forall text: string, e: Edit, search: Range {:trigger Matching()(text, e, search)}
      | search.start <= search.end <= |text|
      ensures RangesFit(Matching()(text, e, search), |Matching()(text, e, search)|, |text|)
    {
      if e.IsTextEdit() {
        var found := FindFrom(EditPattern(e), text[..search.end], search.start);
        MatchesAreDisjoint(text, e, search);
        KeptAreDisjoint(found, Guard(text, e), search.start, search.end);
        var kept := Kept(found, Guard(text, e));
        DisjointFit(kept, |kept|, |text|);
      }
    }
  }

  /** The guarded matches are those of the regular expression, from left to right, whose context fits. */
  lemma MatchingIsExact(text: string, e: Edit, search: Range) returns (found: seq<Range>)
    requires e.IsTextEdit() && Target(e) != "" && search.start <= search.end <= |text|
    ensures AreMatches(EditPattern(e), text[..search.end], search.start, found)
    ensures forall range :: range in Matching()(text, e, search) <==> range in found && PassesGuards(text, e, range)
  {
    found := FindFrom(EditPattern(e), text[..search.end], search.start);
    TargetPattern(e);
    FoundExactly(EditPattern(e), text[..search.end], search.start);
    KeptOnes(found, Guard(text, e));
    forall range | range in found
      ensures Guard(text, e)(range) == PassesGuards(text, e, range)
    {
      var k :| 0 <= k < |found| && found[k] == range;
      assert range.start < range.end <= search.end;
    }
  }

  // ----- pairs of a carriage return and its newline -----

  predicate EndsInReturn(pattern: Pattern) {
    pattern != [] && pattern[|pattern| - 1] == Literal('\r')
  }

  predicate EndsWell(target: string, flexible: bool) {
    flexible || target == "" || target[|target| - 1] != '\r'
  }

  lemma {:induction false} PatternsKeepPairs(target: string, flexible: bool)
    ensures Literal('\n') !in PatternOf(target, flexible)
    ensures EndsWell(target, flexible) ==> !EndsInReturn(PatternOf(target, flexible))
    decreases |target|
  {
    if target != "" {
      assert IsSpace('\r') && IsSpace('\n');
      var n := if flexible && IsSpace(target[0]) then SpaceRun(target)
               else if 2 <= |target| && target[0] == '\r' && target[1] == '\n' then 2 else 1;
      var rest := target[n..];
      PatternsKeepPairs(rest, flexible);
      assert rest != "" ==> rest[|rest| - 1] == target[|target| - 1];
      PatternsAreCrisp(rest, flexible);
    }
  }

  lemma {:induction false} EndKeepsPair(pattern: Pattern, text: string, i: nat)
    requires i <= |text| && pattern != [] && !EndsInReturn(pattern) && MatchEnd(pattern, text, i).Some?
    ensures !SplitsPair(text, MatchEnd(pattern, text, i).value)
    decreases |pattern|
  {
    var rest := pattern[1..];
    var k := match pattern[0]
      case Literal(_) => i + 1
      case AnyNewline => if text[i] == '\n' then i + 1 else i + 2
      case Blanks => i + SpaceRun(text[i..]);
    if rest == [] {
      if pattern[0] == Blanks {
        SpaceRunEnds(text[i..]);
        assert k < |text| ==> text[k] == text[i..][k - i] && !IsSpace(text[k]);
        assert IsSpace('\n');
      }
    } else {
      assert rest[|rest| - 1] == pattern[|pattern| - 1];
      EndKeepsPair(rest, text, k);
    }
  }

  /** What is found at the newline of a pair is found at its carriage return as well. */
  lemma PairIsFoundTogether(pattern: Pattern, text: string, i: nat)
    requires i + 1 < |text| && text[i] == '\r' && text[i + 1] == '\n'
    requires pattern != [] && Literal('\n') !in pattern && MatchEnd(pattern, text, i + 1).Some?
    ensures MatchEnd(pattern, text, i).Some?
  {
    assert pattern[0] in pattern;
    assert text[i..][1..] == text[i + 1..] && text[i..][0] == text[i];
    assert IsSpace('\r');
  }

  predicate PairsAreKept(text: string, ranges: seq<Range>) {
    forall range :: range in ranges ==> !SplitsPair(text, range.start) && !SplitsPair(text, range.end)
  }

  lemma {:induction false} FoundKeepsPairs(pattern: Pattern, text: string, from: nat)
    requires from <= |text| && pattern != [] && !EndsInReturn(pattern) && Literal('\n') !in pattern
    requires SplitsPair(text, from) ==> MatchEnd(pattern, text, from).None?
    ensures PairsAreKept(text, FindFrom(pattern, text, from))
    decreases |text| - from
  {
    if from < |text| {
      if MatchEnd(pattern, text, from).Some? {
        var end := MatchEnd(pattern, text, from).value;
        MatchGrows(pattern, text, from);
        EndKeepsPair(pattern, text, from);
        FoundKeepsPairs(pattern, text, end);
      } else {
        if SplitsPair(text, from + 1) && MatchEnd(pattern, text, from + 1).Some? {
          PairIsFoundTogether(pattern, text, from);
        }
        FoundKeepsPairs(pattern, text, from + 1);
      }
    }
  }

  lemma WindowKeepsPairs(text: string, search: Range, ranges: seq<Range>)
    requires search.start <= search.end <= |text| && !SplitsPair(text, search.end)
    requires AreDisjoint(ranges, search.start, search.end) && PairsAreKept(text[..search.end], ranges)
    ensures PairsAreKept(text, ranges)
  {
    forall range | range in ranges
      ensures !SplitsPair(text, range.start) && !SplitsPair(text, range.end)
    {
      var k :| 0 <= k < |ranges| && ranges[k] == range;
      assert range.start < range.end <= search.end;
    }
  }

  /** Matches of a target that does not end in a lone carriage return never cut a line ending apart. */
  lemma MatchesInKeepPairs(text: string, e: Edit, search: Range)
    requires e.IsTextEdit() && EndsWell(Target(e), e.guards.flexibleWhitespace)
    requires search.start <= search.end <= |text| && !SplitsPair(text, search.start) && !SplitsPair(text, search.end)
    ensures PairsAreKept(text, MatchesIn(text, e, search))
  {
    var window, pattern := text[..search.end], EditPattern(e);
    var found := FindFrom(pattern, window, search.start);
    TargetPattern(e);
    PatternsKeepPairs(Target(e), e.guards.flexibleWhitespace);
    MatchesAreDisjoint(text, e, search);
    if pattern == [] {
      EmptyPatternFindsNothing(window, search.start);
    } else {
      FoundKeepsPairs(pattern, window, search.start);
    }
    WindowKeepsPairs(text, search, found);
    KeptOnes(found, Guard(text, e));
  }

  lemma LinesKeepPairs(text: string, startLine: int, endLine: int)
    requires LinesExist(text, startLine, endLine)
    ensures var range := LineOffsets(text, startLine, endLine).value;
            && range.start <= range.end <= |text|
            && !SplitsPair(text, range.start) && !SplitsPair(text, range.end)
  {
    var range, lines := LineOffsets(text, startLine, endLine).value, Split(text);
    OffsetsInText(text, startLine, endLine);
    OffsetsCutLines(text, startLine, endLine);
    LeadKeepsPair(text, lines, startLine - 1, range.start);
    if endLine < |lines| {
      LeadKeepsPair(text, lines, endLine, range.end);
    }
  }

  lemma LeadKeepsPair(text: string, lines: seq<string>, k: nat, offset: nat)
    requires k <= |lines| && offset <= |text| && text[..offset] == Lead(lines, k)
    ensures !SplitsPair(text, offset)
  {
    if 0 < k {
      assert Lead(lines, k)[|Lead(lines, k)| - 1] == '\n';
      assert text[..offset][offset - 1] == text[offset - 1];
    }
  }

  lemma MatchingKeepsPairs(text: string, e: Edit)
    requires e.IsTextEdit() && EndsWell(Target(e), e.guards.flexibleWhitespace)
    ensures MatchesKeepPairs(Matching(), text, e)
  {
    match e.guards.lines
    case None => MatchesInKeepPairs(text, e, Range(0, |text|));
    case Some((first, last)) =>
      if LinesExist(text, first, last) {
        LinesKeepPairs(text, first, last);
        MatchesInKeepPairs(text, e, LineOffsets(text, first, last).value);
      }
  }

  /** With this matcher every edit keeps Windows line endings, unless its target ends in a lone carriage return. */
  lemma MatchedEditKeepsCrlf(text: string, e: Edit, i: nat)
    requires IsCrlf(text) && '\n' in text
    requires e.IsTextEdit() ==> EndsWell(Target(e), e.guards.flexibleWhitespace)
    requires ApplyEdit(Matching(), text, e, i).Edited?
    ensures IsCrlf(ApplyEdit(Matching(), text, e, i).text)
  {
    MatchingIsSound();
    if e.IsTextEdit() {
      MatchingKeepsPairs(text, e);
    }
    EditKeepsCrlf(Matching(), text, e, i);
  }
}
