/** A text edit does to a text with Windows line endings what it does to the text with plain newlines. */
module EditWindowsEndings {
  import opened Options
  import opened TextLines
  import opened EditContract
  import opened NewlineStyle
  import opened LineRanges
  import opened TextSplices
  import opened TextEdits
  import opened EditGuarantees
  import opened EditMatching
  import opened DiffWindowsEndings

  // ----- where an offset goes -----

  /** The place of an offset in the text with Windows line endings. */
  function Place(text: string, i: nat): nat {
    |ToCrlf(text[..Min(i, |text|)])|
  }

  /** A text is cut at an offset as it is with Windows line endings at the place of that offset. */
  lemma CutAlike(text: string, i: nat)
    requires i <= |text|
    ensures Place(text, i) <= |ToCrlf(text)|
    ensures ToCrlf(text)[..Place(text, i)] == ToCrlf(text[..i])
    ensures ToCrlf(text)[Place(text, i)..] == ToCrlf(text[i..])
  {
    ToCrlfOfTwo(text[..i], text[i..]);
    assert text == text[..i] + text[i..];
  }

  function Unit(c: char): string {
    if c == '\n' then "\r\n" else [c]
  }

  lemma FrontFurther(text: string, i: nat)
    requires i < |text|
    ensures ToCrlf(text[..i + 1]) == ToCrlf(text[..i]) + Unit(text[i])
  {
    ToCrlfOfTwo(text[..i], [text[i]]);
    assert text[..i + 1] == text[..i] + [text[i]];
    assert ToCrlf([text[i]][1..]) == "";
  }

  lemma UnitBehind(whole: string, front: string, unit: string, q: nat)
    requires q <= |whole| && whole[..q] == front + unit
    ensures q == |front| + |unit| && whole[|front|..q] == unit
  {
    assert whole[..q][|front|..] == unit;
  }

  lemma PlaceFurther(text: string, i: nat)
    requires i < |text|
    ensures Place(text, i + 1) == Place(text, i) + |Unit(text[i])| <= |ToCrlf(text)|
    ensures ToCrlf(text)[Place(text, i)..Place(text, i + 1)] == Unit(text[i])
  {
    FrontFurther(text, i);
    CutAlike(text, i + 1);
    UnitBehind(ToCrlf(text), ToCrlf(text[..i]), Unit(text[i]), Place(text, i + 1));
  }

  lemma PlaceOfEnd(text: string)
    ensures Place(text, |text|) == |ToCrlf(text)| && Place(text, 0) == 0
  {
    assert text[..|text|] == text;
  }

  lemma {:induction false} PlacesInOrder(text: string, i: nat, j: nat)
    requires i <= j <= |text|
    ensures Place(text, i) <= Place(text, j) <= |ToCrlf(text)| && (i < j ==> Place(text, i) < Place(text, j))
    decreases j - i
  {
    CutAlike(text, j);
    if i < j {
      PlaceFurther(text, i);
      PlacesInOrder(text, i + 1, j);
    }
  }

  lemma PlaceInFront(text: string, end: nat, i: nat)
    requires i <= end <= |text|
    ensures Place(text[..end], i) == Place(text, i)
  {
    assert text[..end][..i] == text[..i];
  }

  // ----- matching -----

  /** A pattern without a carriage return of its own. */
  predicate IsPlain(pattern: Pattern) {
    Literal('\r') !in pattern && Literal('\n') !in pattern
  }

  lemma {:induction false} PlainTargets(target: string, flexible: bool)
    requires '\r' !in target
    ensures IsPlain(PatternOf(target, flexible))
    decreases |target|
  {
    if target != "" {
      var n := if flexible && IsSpace(target[0]) then SpaceRun(target) else 1;
      PlainTargets(target[n..], flexible);
    }
  }

  /** What stands at an offset of a text and at its place in the other, where that place ends included. */
  predicate StandsAlike(text: string, i: nat, other: string, p: nat, q: nat) {
    && i < |text| && p < q <= |other|
    && if text[i] == '\n' then q == p + 2 && other[p] == '\r' && other[p + 1] == '\n'
       else q == p + 1 && other[p] == text[i]
  }

  lemma UnitStands(text: string, i: nat, other: string, p: nat, q: nat)
    requires i < |text| && p <= q <= |other| && other[p..q] == Unit(text[i])
    ensures StandsAlike(text, i, other, p, q)
  {
    assert other[p] == other[p..q][0];
    assert text[i] == '\n' ==> other[p + 1] == other[p..q][1];
  }

  lemma Stands(text: string, i: nat)
    requires i < |text|
    ensures StandsAlike(text, i, ToCrlf(text), Place(text, i), Place(text, i + 1))
  {
    PlaceFurther(text, i);
    UnitStands(text, i, ToCrlf(text), Place(text, i), Place(text, i + 1));
  }

  /** One character further, the runs of blanks are alike if they are alike behind it. */
  lemma BlankFurther(text: string, i: nat, other: string, p: nat, q: nat)
    requires StandsAlike(text, i, other, p, q)
    ensures p + SpaceRun(other[p..]) == if IsSpace(text[i]) then q + SpaceRun(other[q..]) else p
    ensures SpaceRun(text[i..]) == if IsSpace(text[i]) then 1 + SpaceRun(text[i + 1..]) else 0
  {
    assert IsSpace('\r') && IsSpace('\n');
    RunFurther(text, i);
    RunFurther(other, p);
    if text[i] == '\n' {
      RunFurther(other, p + 1);
    }
  }

  lemma {:induction false} BlanksAlike(text: string, i: nat)
    requires i <= |text|
    ensures Place(text, i) <= |ToCrlf(text)| && i + SpaceRun(text[i..]) <= |text|
    ensures Place(text, i) + SpaceRun(ToCrlf(text)[Place(text, i)..]) == Place(text, i + SpaceRun(text[i..]))
    decreases |text| - i
  {
    if i == |text| {
      PlaceOfEnd(text);
    } else {
      Stands(text, i);
      BlanksAlike(text, i + 1);
      BlankFurther(text, i, ToCrlf(text), Place(text, i), Place(text, i + 1));
    }
  }

  lemma RunFurther(text: string, i: nat)
    requires i < |text|
    ensures SpaceRun(text[i..]) == if IsSpace(text[i]) then 1 + SpaceRun(text[i + 1..]) else 0
  {
    assert text[i..][1..] == text[i + 1..];
  }

  function Placed(text: string, end: Option<nat>): Option<nat>
    requires end.Some? ==> end.value <= |text|
  {
    if end.None? then None else Some(Place(text, end.value))
  }

  /** One token further: it is taken in both texts or in neither. */
  lemma TokenFurther(pattern: Pattern, text: string, i: nat, other: string, p: nat, q: nat)
    requires pattern != [] && IsPlain(pattern) && pattern[0] != Blanks && '\r' !in text
    requires StandsAlike(text, i, other, p, q)
    ensures MatchEnd(pattern, text, i).Some? || MatchEnd(pattern, other, p).Some? ==>
              && MatchEnd(pattern, text, i) == MatchEnd(pattern[1..], text, i + 1)
              && MatchEnd(pattern, other, p) == MatchEnd(pattern[1..], other, q)
  {
    assert pattern[0] in pattern;
  }

  lemma {:induction false} MatchAlike(pattern: Pattern, text: string, i: nat)
    requires i <= |text| && '\r' !in text && IsPlain(pattern)
    ensures Place(text, i) <= |ToCrlf(text)|
    ensures MatchEnd(pattern, ToCrlf(text), Place(text, i)) == Placed(text, MatchEnd(pattern, text, i))
    decreases |pattern|, 1
  {
    CutAlike(text, i);
    if pattern != [] {
      if pattern[0] == Blanks {
        BlankTokenAlike(pattern, text, i);
      } else {
        TokenAlike(pattern, text, i);
      }
    }
  }

  /** Behind a run of blanks, if there is any. */
  lemma BlanksFurther(pattern: Pattern, text: string, i: nat, k: nat)
    requires pattern != [] && pattern[0] == Blanks && i <= k <= |text| && k == i + SpaceRun(text[i..])
    ensures MatchEnd(pattern, text, i) == if k == i then None else MatchEnd(pattern[1..], text, k)
  {
  }

  lemma {:induction false} BlankTokenAlike(pattern: Pattern, text: string, i: nat)
    requires i <= |text| && '\r' !in text && IsPlain(pattern) && pattern != [] && pattern[0] == Blanks
    ensures Place(text, i) <= |ToCrlf(text)|
    ensures MatchEnd(pattern, ToCrlf(text), Place(text, i)) == Placed(text, MatchEnd(pattern, text, i))
    decreases |pattern|, 0
  {
    var k := i + SpaceRun(text[i..]);
    BlanksAlike(text, i);
    PlacesInOrder(text, i, k);
    BlanksFurther(pattern, text, i, k);
    BlanksFurther(pattern, ToCrlf(text), Place(text, i), Place(text, k));
    MatchAlike(pattern[1..], text, k);
  }

  lemma {:induction false} TokenAlike(pattern: Pattern, text: string, i: nat)
    requires i <= |text| && '\r' !in text && IsPlain(pattern) && pattern != [] && pattern[0] != Blanks
    ensures Place(text, i) <= |ToCrlf(text)|
    ensures MatchEnd(pattern, ToCrlf(text), Place(text, i)) == Placed(text, MatchEnd(pattern, text, i))
    decreases |pattern|, 0
  {
    if i < |text| {
      Stands(text, i);
      TokenFurther(pattern, text, i, ToCrlf(text), Place(text, i), Place(text, i + 1));
      MatchAlike(pattern[1..], text, i + 1);
    } else {
      PlaceOfEnd(text);
    }
  }

  // ----- all matches -----

  function PlacedRange(text: string, range: Range): Range {
    Range(Place(text, range.start), Place(text, range.end))
  }

  function AllPlaced(text: string, ranges: seq<Range>): seq<Range> {
    seq(|ranges|, k requires 0 <= k < |ranges| => PlacedRange(text, ranges[k]))
  }

  lemma PlacedInFront(text: string, range: Range, rest: seq<Range>)
    ensures AllPlaced(text, [range] + rest) == [PlacedRange(text, range)] + AllPlaced(text, rest)
  {
  }

  /** The newline of a pair is no place to find anything, if nothing is found at its carriage return. */
  lemma NothingInsidePair(pattern: Pattern, text: string, i: nat)
    requires i + 1 < |text| && text[i] == '\r' && text[i + 1] == '\n'
    requires pattern != [] && IsPlain(pattern) && MatchEnd(pattern, text, i).None?
    ensures FindFrom(pattern, text, i) == FindFrom(pattern, text, i + 2)
  {
    if MatchEnd(pattern, text, i + 1).Some? {
      PairIsFoundTogether(pattern, text, i);
    }
  }

  lemma {:induction false} FindAlike(pattern: Pattern, text: string, from: nat)
    requires from <= |text| && '\r' !in text && IsPlain(pattern) && pattern != []
    ensures Place(text, from) <= |ToCrlf(text)|
    ensures FindFrom(pattern, ToCrlf(text), Place(text, from)) == AllPlaced(text, FindFrom(pattern, text, from))
    decreases |text| - from
  {
    MatchAlike(pattern, text, from);
    if from == |text| {
      PlaceOfEnd(text);
    } else {
      Stands(text, from);
      if MatchEnd(pattern, text, from).Some? {
        var end := MatchEnd(pattern, text, from).value;
        MatchGrows(pattern, text, from);
        PlacesInOrder(text, from, end);
        FindAlike(pattern, text, end);
        PlacedInFront(text, Range(from, end), FindFrom(pattern, text, end));
      } else {
        FindAlike(pattern, text, from + 1);
        if text[from] == '\n' {
          NothingInsidePair(pattern, ToCrlf(text), Place(text, from));
        }
      }
    }
  }

  lemma {:induction false} KeptAlike(text: string, ranges: seq<Range>, keep: Range -> bool, other: Range -> bool)
    requires forall range :: range in ranges ==> other(PlacedRange(text, range)) == keep(range)
    ensures Kept(AllPlaced(text, ranges), other) == AllPlaced(text, Kept(ranges, keep))
  {
    if ranges != [] {
      var range, rest := ranges[0], ranges[1..];
      assert ranges == [range] + rest;
      PlacedInFront(text, range, rest);
      KeptAlike(text, rest, keep, other);
      PlacedInFront(text, range, Kept(rest, keep));
      KeptFurther([], range, rest, keep);
      KeptFurther([], PlacedRange(text, range), AllPlaced(text, rest), other);
      assert range in ranges;
      assert forall more: seq<Range> :: [] + more == more;
    }
  }

  // ----- the context guards -----

  /** Every place is that of an offset, or inside a pair. */
  lemma {:induction false} PlaceOrPair(text: string, p: nat) returns (i: nat)
    requires p <= |ToCrlf(text)|
    ensures i <= |text| && (p == Place(text, i) || (i < |text| && text[i] == '\n' && p == Place(text, i) + 1))
    decreases |text|
  {
    PlaceOfEnd(text);
    if p == |ToCrlf(text)| {
      i := |text|;
    } else {
      var n := |text| - 1;
      PlaceFurther(text, n);
      CutAlike(text, n);
      if p < Place(text, n) {
        i := PlaceOrPair(text[..n], p);
        PlaceInFront(text, n, i);
      } else {
        i := n;
      }
    }
  }

  lemma PairEndsAlike(pattern: Pattern, text: string, i: nat)
    requires i + 1 < |text| && text[i] == '\r' && text[i + 1] == '\n'
    requires pattern != [] && IsPlain(pattern) && MatchEnd(pattern, text, i + 1).Some?
    ensures MatchEnd(pattern, text, i) == MatchEnd(pattern, text, i + 1)
  {
    assert pattern[0] in pattern;
    assert IsSpace('\r');
    RunFurther(text, i);
  }

  lemma FitsBeforeAlike(pattern: Pattern, text: string, start: nat)
    requires start <= |text| && '\r' !in text && IsPlain(pattern)
    ensures Place(text, start) <= |ToCrlf(text)|
    ensures FitsBefore(pattern, ToCrlf(text), Place(text, start)) <==> FitsBefore(pattern, text, start)
  {
    var front := text[..start];
    CutAlike(text, start);
    PlaceOfEnd(front);
    if FitsBefore(pattern, text, start) {
      var s :| 0 <= s <= start && MatchEnd(pattern, front, s) == Some(start);
      MatchAlike(pattern, front, s);
      assert MatchEnd(pattern, ToCrlf(text)[..Place(text, start)], Place(front, s)) == Some(Place(text, start));
    }
    if FitsBefore(pattern, ToCrlf(text), Place(text, start)) {
      var p :| 0 <= p <= Place(text, start)
               && MatchEnd(pattern, ToCrlf(text)[..Place(text, start)], p) == Some(Place(text, start));
      var s := FittingStart(pattern, front, p);
      assert MatchEnd(pattern, text[..start], s) == Some(start);
    }
  }

  /** An offset from which the pattern reaches the end of the text, if it does from some place of the other. */
  lemma FittingStart(pattern: Pattern, text: string, p: nat) returns (s: nat)
    requires '\r' !in text && IsPlain(pattern) && p <= |ToCrlf(text)|
    requires MatchEnd(pattern, ToCrlf(text), p) == Some(|ToCrlf(text)|)
    ensures s <= |text| && MatchEnd(pattern, text, s) == Some(|text|)
  {
    if pattern == [] {
      s := |text|;
    } else {
      s := PlaceOrPair(text, p);
      if p != Place(text, s) {
        Stands(text, s);
        PairEndsAlike(pattern, ToCrlf(text), Place(text, s));
      }
      MatchAlike(pattern, text, s);
      PlaceOfEnd(text);
      PlacesInOrder(text, MatchEnd(pattern, text, s).value, |text|);
    }
  }

  lemma FitsAfterAlike(pattern: Pattern, text: string, end: nat)
    requires end <= |text| && '\r' !in text && IsPlain(pattern)
    ensures Place(text, end) <= |ToCrlf(text)|
    ensures FitsAfter(pattern, ToCrlf(text), Place(text, end)) <==> FitsAfter(pattern, text, end)
  {
    CutAlike(text, end);
    MatchAlike(pattern, text[end..], 0);
    PlaceOfEnd(text[end..]);
  }

  /** No carriage return in what an edit looks for. */
  predicate IsPlainEdit(e: Edit)
    requires e.IsTextEdit()
  {
    && '\r' !in Target(e)
    && (e.guards.beforeContext.Some? ==> '\r' !in e.guards.beforeContext.value)
    && (e.guards.afterContext.Some? ==> '\r' !in e.guards.afterContext.value)
  }

  lemma GuardAlike(text: string, e: Edit, range: Range)
    requires e.IsTextEdit() && IsPlainEdit(e) && '\r' !in text && range.start <= range.end <= |text|
    ensures Guard(ToCrlf(text), e)(PlacedRange(text, range)) == Guard(text, e)(range)
  {
    PlacesInOrder(text, range.start, range.end);
    if e.guards.beforeContext.Some? {
      PlainTargets(e.guards.beforeContext.value, e.guards.flexibleWhitespace);
      FitsBeforeAlike(PatternOf(e.guards.beforeContext.value, e.guards.flexibleWhitespace), text, range.start);
    }
    if e.guards.afterContext.Some? {
      PlainTargets(e.guards.afterContext.value, e.guards.flexibleWhitespace);
      FitsAfterAlike(PatternOf(e.guards.afterContext.value, e.guards.flexibleWhitespace), text, range.end);
    }
  }

  lemma FoundInWindow(text: string, e: Edit, search: Range)
    requires e.IsTextEdit() && IsPlainEdit(e) && Target(e) != "" && '\r' !in text
    requires search.start <= search.end <= |text|
    ensures PlacedRange(text, search).start <= PlacedRange(text, search).end <= |ToCrlf(text)|
    ensures FindFrom(EditPattern(e), ToCrlf(text)[..Place(text, search.end)], Place(text, search.start))
         == AllPlaced(text, FindFrom(EditPattern(e), text[..search.end], search.start))
  {
    var window := text[..search.end];
    PlacesInOrder(text, search.start, search.end);
    CutAlike(text, search.end);
    PlaceInFront(text, search.end, search.start);
    TargetPattern(e);
    PlainTargets(Target(e), e.guards.flexibleWhitespace);
    FindAlike(EditPattern(e), window, search.start);
    var found := FindFrom(EditPattern(e), window, search.start);
    MatchesAreDisjoint(text, e, search);
    forall k | 0 <= k < |found|
      ensures PlacedRange(window, found[k]) == PlacedRange(text, found[k])
    {
      PlaceInFront(text, search.end, found[k].start);
      PlaceInFront(text, search.end, found[k].end);
    }
  }

  /** The guarded matches in a window stand at the places of those in the other text. */
  lemma MatchesAlike(text: string, e: Edit, search: Range)
    requires e.IsTextEdit() && IsPlainEdit(e) && Target(e) != "" && '\r' !in text
    requires search.start <= search.end <= |text|
    ensures MatchesIn(ToCrlf(text), e, PlacedRange(text, search)) == AllPlaced(text, MatchesIn(text, e, search))
  {
    var found := FindFrom(EditPattern(e), text[..search.end], search.start);
    FoundInWindow(text, e, search);
    MatchesAreDisjoint(text, e, search);
    forall range | range in found
      ensures Guard(ToCrlf(text), e)(PlacedRange(text, range)) == Guard(text, e)(range)
    {
      var k :| 0 <= k < |found| && found[k] == range;
      GuardAlike(text, e, range);
    }
    KeptAlike(text, found, Guard(text, e), Guard(ToCrlf(text), e));
  }

  // ----- line windows -----

  lemma PiecesAlike(text: string)
    requires '\r' !in text
    ensures Split(ToCrlf(text)) == CrlfPieces(Split(text))
  {
    var lines := Split(text);
    JoinSplit(text);
    ToCrlfOfJoined(lines);
    JoinedPieces(lines);
    forall piece | piece in CrlfPieces(lines)
      ensures '\n' !in piece
    {
      var k :| 0 <= k < |lines| && CrlfPieces(lines)[k] == piece;
      assert lines[k] in lines;
    }
    SplitJoin(CrlfPieces(lines));
  }

  lemma LineAlike(front: string, line: string)
    requires '\n' !in line
    ensures ToCrlf(front + line + "\n") == ToCrlf(front) + (line + "\r") + "\n"
  {
    ToCrlfOfLine(line);
    ToCrlfOfTwo(front + line, "\n");
    ToCrlfOfTwo(front, line);
    assert "\n"[1..] == "" && ToCrlf("") == "" && ToCrlf("\n") == "\r\n";
    assert ToCrlf(front) + line + "\r\n" == ToCrlf(front) + (line + "\r") + "\n";
  }

  lemma {:induction false} LeadAlike(lines: seq<string>, k: nat)
    requires k < |lines| && forall line :: line in lines ==> '\n' !in line
    ensures Lead(CrlfPieces(lines), k) == ToCrlf(Lead(lines, k))
    decreases k
  {
    if 0 < k {
      LeadAlike(lines, k - 1);
      assert lines[k - 1] in lines;
      LineAlike(Lead(lines, k - 1), lines[k - 1]);
      assert CrlfPieces(lines)[k - 1] == lines[k - 1] + "\r";
    }
  }

  lemma StartAlike(text: string, k: nat, offset: nat)
    requires '\r' !in text && k < |Split(text)|
    requires offset <= |text| && text[..offset] == Lead(Split(text), k)
    ensures k < |Split(ToCrlf(text))| && |Lead(Split(ToCrlf(text)), k)| == Place(text, offset)
  {
    PiecesAlike(text);
    LeadAlike(Split(text), k);
  }

  lemma LinesAlike(text: string, first: int, last: int)
    requires '\r' !in text
    ensures LinesExist(ToCrlf(text), first, last) <==> LinesExist(text, first, last)
    ensures LinesExist(text, first, last) ==>
              LineOffsets(ToCrlf(text), first, last).value == PlacedRange(text, LineOffsets(text, first, last).value)
  {
    PiecesAlike(text);
    if LinesExist(text, first, last) {
      var range := LineOffsets(text, first, last).value;
      OffsetsInText(text, first, last);
      OffsetsCutLines(text, first, last);
      StartAlike(text, first - 1, range.start);
      if last < |Split(text)| {
        StartAlike(text, last, range.end);
      } else {
        PlaceOfEnd(text);
      }
    }
  }

  // ----- resolving and replacing -----

  function PlacedResolution(text: string, resolution: Resolution): Resolution {
    if resolution.Unresolved? then resolution else Resolved(AllPlaced(text, resolution.ranges))
  }

  lemma ResolveAlike(text: string, e: Edit, i: nat)
    requires e.IsTextEdit() && IsPlainEdit(e) && Target(e) != "" && '\r' !in text
    ensures Resolve(Matching(), ToCrlf(text), e, i) == PlacedResolution(text, Resolve(Matching(), text, e, i))
  {
    match e.guards.lines
    case None =>
      PlaceOfEnd(text);
      MatchesAlike(text, e, Range(0, |text|));
    case Some((first, last)) =>
      LinesAlike(text, first, last);
      if LinesExist(text, first, last) {
        OffsetsInText(text, first, last);
        MatchesAlike(text, e, LineOffsets(text, first, last).value);
      }
  }

  function PlacedOp(text: string, op: Op): Op {
    Op(Place(text, op.start), Place(text, op.end), ToCrlf(op.replacement))
  }

  function PlacedOps(text: string, ops: seq<Op>): seq<Op> {
    seq(|ops|, k requires 0 <= k < |ops| => PlacedOp(text, ops[k]))
  }

  lemma SliceAlike(text: string, start: nat, end: nat)
    requires start <= end <= |text|
    ensures Place(text, start) <= Place(text, end) <= |ToCrlf(text)|
    ensures ToCrlf(text)[Place(text, start)..Place(text, end)] == ToCrlf(text[start..end])
  {
    PlacesInOrder(text, start, end);
    CutAlike(text, end);
    CutAlike(text[..end], start);
    PlaceInFront(text, end, start);
    assert text[..end][start..] == text[start..end];
    assert ToCrlf(text)[Place(text, start)..Place(text, end)] == ToCrlf(text)[..Place(text, end)][Place(text, start)..];
  }

  lemma AdaptAlike(value: string, text: string, start: nat, end: nat, other: nat, upTo: nat)
    requires '\r' !in text && '\n' in text
    ensures Adapt(value, ToCrlf(text), other, upTo) == ToCrlf(Adapt(value, text, start, end))
  {
    ToCrlfIsCrlf(text);
    NewlinesStay(text);
    CrlfTextPrefersCrlf(ToCrlf(text), other, upTo);
    LfTextPrefersLf(text, start, end);
  }

  lemma {:induction false} NewlinesStay(text: string)
    requires '\n' in text
    ensures '\n' in ToCrlf(text)
  {
    if text[0] != '\n' {
      NewlinesStay(text[1..]);
    }
  }

  /** The text an edit brings in. */
  function NewText(e: Edit): string
    requires e.IsTextEdit()
  {
    match e
    case Replace(_, newText, _, _) => newText
    case InsertBefore(_, inserted, _, _) => inserted
    case InsertAfter(_, inserted, _, _) => inserted
  }

  lemma ReplacementParts(e: Edit, text: string, range: Range, adapted: string, matched: string)
    requires e.IsTextEdit() && range.start <= range.end <= |text| && matched == text[range.start..range.end]
    requires adapted == Adapt(NewText(e), text, range.start, range.end)
    ensures Replacement(e, text, range) ==
              if e.Replace? then adapted else if e.InsertBefore? then adapted + matched else matched + adapted
  {
  }

  lemma ReplacementAlike(e: Edit, text: string, range: Range)
    requires e.IsTextEdit() && '\r' !in text && '\n' in text && range.start <= range.end <= |text|
    ensures Replacement(e, ToCrlf(text), PlacedRange(text, range)) == ToCrlf(Replacement(e, text, range))
  {
    var place, matched := PlacedRange(text, range), text[range.start..range.end];
    var adapted := Adapt(NewText(e), text, range.start, range.end);
    SliceAlike(text, range.start, range.end);
    AdaptAlike(NewText(e), text, range.start, range.end, place.start, place.end);
    ReplacementParts(e, text, range, adapted, matched);
    ReplacementParts(e, ToCrlf(text), place, ToCrlf(adapted), ToCrlf(matched));
    ToCrlfOfTwo(adapted, matched);
    ToCrlfOfTwo(matched, adapted);
  }

  lemma OpsAlike(e: Edit, text: string, ranges: seq<Range>)
    requires e.IsTextEdit() && '\r' !in text && '\n' in text
    requires forall k :: 0 <= k < |ranges| ==> ranges[k].start <= ranges[k].end <= |text|
    ensures OpsOf(e, ToCrlf(text), AllPlaced(text, ranges)) == PlacedOps(text, OpsOf(e, text, ranges))
  {
    var ops, placed := OpsOf(e, text, ranges), OpsOf(e, ToCrlf(text), AllPlaced(text, ranges));
    forall k | 0 <= k < |ranges|
      ensures placed[k] == PlacedOp(text, ops[k])
    {
      ReplacementAlike(e, text, ranges[k]);
    }
  }

  lemma {:induction false} WovenAlike(text: string, ops: seq<Op>, k: nat, upTo: nat)
    requires k <= |ops| && upTo <= |text| && Fit(ops, k, upTo)
    ensures Place(text, upTo) <= |ToCrlf(text)| && Fit(PlacedOps(text, ops), k, Place(text, upTo))
    ensures Woven(ToCrlf(text), PlacedOps(text, ops), k, Place(text, upTo)) == ToCrlf(Woven(text, ops, k, upTo))
    decreases k
  {
    CutAlike(text, upTo);
    if 0 < k {
      var op := ops[k - 1];
      WovenAlike(text, ops, k - 1, op.start);
      PlacesInOrder(text, op.start, op.end);
      SliceAlike(text, op.end, upTo);
      ToCrlfOfTwo(Woven(text, ops, k - 1, op.start) + op.replacement, text[op.end..upTo]);
      ToCrlfOfTwo(Woven(text, ops, k - 1, op.start), op.replacement);
    }
  }

  // ----- the edit -----

  function WindowsResult(result: EditResult): EditResult {
    match result
    case Edited(text) => Edited(ToCrlf(text))
    case Failed(error) => Failed(error)
  }

  lemma {:induction false} RangesFitInside(ranges: seq<Range>, k: nat, upTo: nat)
    requires k <= |ranges| && RangesFit(ranges, k, upTo)
    ensures forall m :: 0 <= m < k ==> ranges[m].start <= ranges[m].end <= upTo
    decreases k
  {
    if 0 < k {
      RangesFitInside(ranges, k - 1, ranges[k - 1].start);
    }
  }

  /**
   A text edit whose target and context hold no carriage return finds as many matches in a text with Windows line
   endings as in the same text with plain newlines, fails with the same error, or leaves the same text but for the line
   endings, as long as the text has any newline to go by.
   */
  lemma TextEditActsAlike(text: string, e: Edit, i: nat)
    requires e.IsTextEdit() && IsPlainEdit(e) && '\r' !in text && '\n' in text
    ensures ApplyTextEdit(Matching(), ToCrlf(text), e, i) == WindowsResult(ApplyTextEdit(Matching(), text, e, i))
  {
    if Target(e) != "" {
      ResolveAlike(text, e, i);
      var resolution := Resolve(Matching(), text, e, i);
      if resolution.Resolved? {
        MatchingIsSound();
        ResolvedRangesFit(Matching(), text, e, i);
        RangesFitInside(resolution.ranges, |resolution.ranges|, |text|);
        OpsAlike(e, text, resolution.ranges);
        TextEditWeaves(Matching(), text, e, i);
        TextEditWeaves(Matching(), ToCrlf(text), e, i);
        WovenAlike(text, OpsOf(e, text, resolution.ranges), |resolution.ranges|, |text|);
        PlaceOfEnd(text);
      }
    }
  }
}
