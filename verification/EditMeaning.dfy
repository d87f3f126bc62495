/** What text edits mean: where an insertion lands, what takes the place of a match, and when an edit is refused. */
module EditMeaning {
  import opened Options
  import opened TextLines
  import opened EditContract
  import opened NewlineStyle
  import opened LineRanges
  import opened TextSplices
  import opened TextEdits
  import opened EditGuarantees

  // ----- line endings of inserted text -----

  /** Normalising a text whose newlines have been given carriage returns gives it back. */
  lemma {:induction false} ToLfUndoesToCrlf(text: string)
    ensures ToLf(ToCrlf(text)) == text
  {
    if text != "" {
      ToLfUndoesToCrlf(text[1..]);
      var rest := ToCrlf(text[1..]);
      if text[0] == '\n' {
        assert ("\r\n" + rest)[2..] == rest;
      } else {
        assert ([text[0]] + rest)[1..] == rest;
        NewlineIsSecond(text[1..]);
      }
    }
  }

  lemma NewlineIsSecond(text: string)
    ensures ToCrlf(text) != "" ==> ToCrlf(text)[0] != '\n'
  {
  }

  /** The text to insert, with the line endings of the text it goes into. */
  ghost predicate FitsEndings(text: string, given: string, inserted: string) {
    && (inserted == ToLf(given) || inserted == ToCrlf(ToLf(given)))
    && (IsLf(text) ==> inserted == ToLf(given))
    && (IsCrlf(text) && '\n' in text ==> IsCrlf(inserted) && ToLf(inserted) == ToLf(given))
  }

  lemma AdaptedFits(given: string, text: string, start: nat, end: nat)
    ensures FitsEndings(text, given, Adapt(given, text, start, end))
  {
    if IsLf(text) {
      LfTextPrefersLf(text, start, end);
    }
    if IsCrlf(text) && '\n' in text {
      AdaptedIsCrlf(given, text, start, end);
      CrlfTextPrefersCrlf(text, start, end);
      ToLfUndoesToCrlf(ToLf(given));
    }
  }

  /**
   The effect of an edit at one match: an insertion puts its text in front of the match or behind it and takes
   nothing away, a replacement puts its text in the place of the match.
   */
  ghost predicate IsEffect(text: string, e: Edit, match_: Range, effect: Op)
    requires e.IsTextEdit()
  {
    match e
    case Replace(_, newText, _, _) =>
      effect.start == match_.start && effect.end == match_.end && FitsEndings(text, newText, effect.replacement)
    case InsertBefore(_, given, _, _) =>
      effect.start == effect.end == match_.start && FitsEndings(text, given, effect.replacement)
    case InsertAfter(_, given, _, _) =>
      effect.start == effect.end == match_.end && FitsEndings(text, given, effect.replacement)
  }

  // ----- weaving effects -----

  /** The operation, which rewrites its whole match, does what the effect does. */
  predicate DoesTheSame(text: string, op: Op, effect: Op)
    requires op.start <= op.end <= |text|
  {
    var matched := text[op.start..op.end];
    || effect == op
    || (effect.start == effect.end == op.start && op.replacement == effect.replacement + matched)
    || (effect.start == effect.end == op.end && op.replacement == matched + effect.replacement)
  }

  lemma {:induction false} FitFurther(ops: seq<Op>, k: nat, upTo: nat, further: nat)
    requires k <= |ops| && Fit(ops, k, upTo) && upTo <= further
    ensures Fit(ops, k, further)
  {
  }

  lemma {:induction false} WovenFurther(text: string, ops: seq<Op>, k: nat, upTo: nat, further: nat)
    requires k <= |ops| && Fit(ops, k, upTo) && upTo <= further <= |text| && Fit(ops, k, further)
    ensures Woven(text, ops, k, upTo) + text[upTo..further] == Woven(text, ops, k, further)
  {
    if k == 0 {
      assert text[..upTo] + text[upTo..further] == text[..further];
    } else {
      var op := ops[k - 1];
      assert text[op.end..upTo] + text[upTo..further] == text[op.end..further];
      var front := Woven(text, ops, k - 1, op.start) + op.replacement;
      assert front + text[op.end..upTo] + text[upTo..further] == front + (text[op.end..upTo] + text[upTo..further]);
    }
  }

  /** Operations and effects that do the same one by one do the same together. */
  lemma {:induction false} EffectsWeave(text: string, ops: seq<Op>, effects: seq<Op>, k: nat, upTo: nat)
    requires k <= |ops| == |effects| && upTo <= |text| && Fit(ops, k, upTo)
    requires forall j :: 0 <= j < k ==>
               ops[j].start <= ops[j].end <= |text| && DoesTheSame(text, ops[j], effects[j])
    ensures Fit(effects, k, upTo) && Woven(text, effects, k, upTo) == Woven(text, ops, k, upTo)
  {
    if 0 < k {
      var op, effect := ops[k - 1], effects[k - 1];
      EffectsWeave(text, ops, effects, k - 1, op.start);
      FitFurther(effects, k - 1, op.start, effect.start);
      WovenFurther(text, effects, k - 1, op.start, effect.start);
      OneEffectWeaves(text, op, effect, Woven(text, ops, k - 1, op.start), upTo);
    }
  }

  lemma OneEffectWeaves(text: string, op: Op, effect: Op, front: string, upTo: nat)
    requires op.start <= op.end <= upTo <= |text| && DoesTheSame(text, op, effect)
    requires op.start <= effect.start <= effect.end <= upTo
    ensures front + text[op.start..effect.start] + effect.replacement + text[effect.end..upTo]
         == front + op.replacement + text[op.end..upTo]
  {
    var matched, behind := text[op.start..op.end], text[op.end..upTo];
    if effect == op {
      assert front + text[op.start..op.start] == front;
    } else if effect.start == effect.end == op.start && op.replacement == effect.replacement + matched {
      assert text[op.start..effect.start] == [] && text[effect.end..upTo] == matched + behind;
      Regrouped(front, effect.replacement, matched, behind);
      assert front + [] == front;
    } else {
      Regrouped(front, matched, effect.replacement, behind);
    }
  }

  lemma Regrouped(a: string, b: string, c: string, d: string)
    ensures a + b + (c + d) == a + (b + c) + d
    ensures a + b + c + d == a + (b + c) + d
  {
  }

  /** The effect of an edit at a match. */
  function EffectAt(text: string, e: Edit, at: Range): Op
    requires e.IsTextEdit()
  {
    match e
    case Replace(_, newText, _, _) => Op(at.start, at.end, Adapt(newText, text, at.start, at.end))
    case InsertBefore(_, given, _, _) => Op(at.start, at.start, Adapt(given, text, at.start, at.end))
    case InsertAfter(_, given, _, _) => Op(at.end, at.end, Adapt(given, text, at.start, at.end))
  }

  lemma EffectIsMeant(text: string, e: Edit, at: Range)
    requires e.IsTextEdit() && at.start <= at.end <= |text|
    ensures IsEffect(text, e, at, EffectAt(text, e, at))
    ensures DoesTheSame(text, Op(at.start, at.end, Replacement(e, text, at)), EffectAt(text, e, at))
  {
    match e
    case Replace(_, newText, _, _) => AdaptedFits(newText, text, at.start, at.end);
    case InsertBefore(_, given, _, _) => AdaptedFits(given, text, at.start, at.end);
    case InsertAfter(_, given, _, _) => AdaptedFits(given, text, at.start, at.end);
  }

  // ----- one text edit -----

  function TargetOf(e: Edit): string
    requires e.IsTextEdit()
  {
    if e.Replace? then e.oldText else e.anchor
  }

  /** The lines an edit is narrowed to exist. */
  predicate WindowExists(text: string, e: Edit)
    requires e.IsTextEdit()
  {
    e.guards.lines.None? || LinesExist(text, e.guards.lines.value.0, e.guards.lines.value.1)
  }

  /** The matches of an edit in its window of a text. */
  function MatchesOf(find: Matcher, text: string, e: Edit): seq<Range>
    requires e.IsTextEdit() && WindowExists(text, e)
  {
    if e.guards.lines.None? then find(text, e, Range(0, |text|))
    else find(text, e, LineOffsets(text, e.guards.lines.value.0, e.guards.lines.value.1).value)
  }

  /** How many matches an edit asks for: one, if it does not ask for more. */
  function Expected(e: Edit): nat
    requires e.IsTextEdit()
  {
    if e.expectedOccurrences.Some? && 1 < e.expectedOccurrences.value then e.expectedOccurrences.value else 1
  }

  /** When a text edit is refused, with which error, and that it is carried out otherwise. */
  lemma TextEditIsAnswered(find: Matcher, text: string, e: Edit, i: nat)
    requires e.IsTextEdit()
    ensures var result := ApplyEdit(find, text, e, i);
            if TargetOf(e) == "" then result == Failed(TargetRequired(i))
            else if !WindowExists(text, e) then result == Failed(LineRangeInvalid(i))
            else if |MatchesOf(find, text, e)| != Expected(e) then
              result == Failed(MatchCountMismatch(i, Expected(e), |MatchesOf(find, text, e)|))
            else result.Edited?
  {
  }

  /**
   An accepted text edit does at each of its matches what its type says, with the line endings of the text, and
   nothing else: the effects are woven into the text all at once.
   */
  lemma TextEditMeans(find: Matcher, text: string, e: Edit, i: nat) returns (effects: seq<Op>)
    requires IsSound(find) && e.IsTextEdit() && ApplyEdit(find, text, e, i).Edited?
    ensures WindowExists(text, e) && |effects| == |MatchesOf(find, text, e)|
    ensures forall k :: 0 <= k < |effects| ==> IsEffect(text, e, MatchesOf(find, text, e)[k], effects[k])
    ensures Fit(effects, |effects|, |text|)
    ensures ApplyEdit(find, text, e, i).text == Woven(text, effects, |effects|, |text|)
  {
    var ranges := Resolve(find, text, e, i).ranges;
    var ops := OpsOf(e, text, ranges);
    effects := seq(|ranges|, k requires 0 <= k < |ranges| => EffectAt(text, e, ranges[k]));
    TextEditWeaves(find, text, e, i);
    ResolvedRangesFit(find, text, e, i);
    RangesAreProper(ranges, |ranges|, |text|);
    forall k | 0 <= k < |ranges|
      ensures ops[k].start <= ops[k].end <= |text| && DoesTheSame(text, ops[k], effects[k])
      ensures IsEffect(text, e, ranges[k], effects[k])
    {
      EffectIsMeant(text, e, ranges[k]);
    }
    EffectsWeave(text, ops, effects, |ops|, |text|);
  }

  // ----- the snapshot -----

  /** Every match of the first `n` edits in the original, with the edit it belongs to. */
  function AllMatchesOf(find: Matcher, original: string, edits: seq<Edit>, n: nat): seq<(Edit, Range)>
    requires n <= |edits| && forall e :: e in edits ==> e.IsTextEdit() && WindowExists(original, e)
  {
    if n == 0 then []
    else
      var e := edits[n - 1];
      AllMatchesOf(find, original, edits, n - 1) + WithEdit(e, MatchesOf(find, original, e))
  }

  function WithEdit(e: Edit, ranges: seq<Range>): seq<(Edit, Range)> {
    seq(|ranges|, k requires 0 <= k < |ranges| => (e, ranges[k]))
  }

  /** The edit is a text edit that can be carried out in the original. */
  predicate IsFound(find: Matcher, original: string, e: Edit) {
    e.IsTextEdit() && TargetOf(e) != "" && WindowExists(original, e) && |MatchesOf(find, original, e)| == Expected(e)
  }

  predicate AllAreFound(find: Matcher, original: string, edits: seq<Edit>) {
    forall e :: e in edits ==> IsFound(find, original, e)
  }

  lemma SnapshotOpsWhen(find: Matcher, original: string, e: Edit)
    ensures SnapshotOps(find, original, e).Some? <==> IsFound(find, original, e)
    ensures SnapshotOps(find, original, e).Some? ==>
              SnapshotOps(find, original, e) == Some(OpsOf(e, original, MatchesOf(find, original, e)))
  {
  }

  /** The operations rewrite these matches, one by one. */
  ghost predicate Rewrites(original: string, all: seq<(Edit, Range)>, ops: seq<Op>) {
    |ops| == |all| && forall j :: 0 <= j < |all| ==> RewritesOne(original, all[j].0, all[j].1, ops[j])
  }

  predicate RewritesOne(original: string, e: Edit, at: Range, op: Op) {
    e.IsTextEdit() && op == Op(at.start, at.end, Replacement(e, original, at))
  }

  lemma RewritesMore(original: string, a: seq<(Edit, Range)>, x: seq<Op>, b: seq<(Edit, Range)>, y: seq<Op>)
    requires Rewrites(original, a, x) && Rewrites(original, b, y)
    ensures Rewrites(original, a + b, x + y)
  {
    var all, ops := a + b, x + y;
    forall j | 0 <= j < |all|
      ensures RewritesOne(original, all[j].0, all[j].1, ops[j])
    {
      if j < |a| {
        assert all[j] == a[j] && ops[j] == x[j];
      } else {
        assert all[j] == b[j - |a|] && ops[j] == y[j - |a|];
      }
    }
  }

  lemma EditRewrites(find: Matcher, original: string, e: Edit)
    requires IsFound(find, original, e)
    ensures SnapshotOps(find, original, e).Some?
    ensures Rewrites(original, WithEdit(e, MatchesOf(find, original, e)), SnapshotOps(find, original, e).value)
  {
    SnapshotOpsWhen(find, original, e);
    var ranges := MatchesOf(find, original, e);
    forall k | 0 <= k < |ranges|
      ensures RewritesOne(original, e, ranges[k], OpsOf(e, original, ranges)[k])
    {
    }
  }

  lemma {:induction false} GatheredAreMatches(find: Matcher, original: string, edits: seq<Edit>, n: nat)
    returns (ops: seq<Op>)
    requires n <= |edits| && AllAreFound(find, original, edits)
    ensures Gathered(Finder(find, original), edits, n) == Some(ops)
    ensures Rewrites(original, AllMatchesOf(find, original, edits, n), ops)
  {
    if n == 0 {
      ops := [];
    } else {
      var front := GatheredAreMatches(find, original, edits, n - 1);
      var more := FoundOps(find, original, edits, n - 1);
      OneMoreGathered(Finder(find, original), edits, n);
      RewritesMore(original, AllMatchesOf(find, original, edits, n - 1), front,
                   WithEdit(edits[n - 1], MatchesOf(find, original, edits[n - 1])), more);
      ops := front + more;
    }
  }

  lemma FoundOps(find: Matcher, original: string, edits: seq<Edit>, i: nat) returns (ops: seq<Op>)
    requires i < |edits| && AllAreFound(find, original, edits)
    ensures IsFound(find, original, edits[i]) && Finder(find, original)(edits[i]) == Some(ops)
    ensures Rewrites(original, WithEdit(edits[i], MatchesOf(find, original, edits[i])), ops)
  {
    assert edits[i] in edits;
    EditRewrites(find, original, edits[i]);
    ops := SnapshotOps(find, original, edits[i]).value;
  }

  lemma OneMoreGathered(ops: Edit -> Option<seq<Op>>, edits: seq<Edit>, n: nat)
    requires 0 < n <= |edits| && Gathered(ops, edits, n - 1).Some? && ops(edits[n - 1]).Some?
    ensures Gathered(ops, edits, n) == Some(Gathered(ops, edits, n - 1).value + ops(edits[n - 1]).value)
  {
  }

  lemma {:induction false} GatheredFromAll(ops: Edit -> Option<seq<Op>>, edits: seq<Edit>, n: nat)
    requires n <= |edits| && Gathered(ops, edits, n).Some?
    ensures forall i :: 0 <= i < n ==> ops(edits[i]).Some?
  {
    if 0 < n {
      GatheredFromAll(ops, edits, n - 1);
    }
  }

  lemma GatheredMeansFound(find: Matcher, original: string, edits: seq<Edit>)
    requires AllSnapshotOps(find, original, edits).Some?
    ensures AllAreFound(find, original, edits)
  {
    GatheredFromAll(Finder(find, original), edits, |edits|);
    forall e | e in edits
      ensures IsFound(find, original, e)
    {
      var i :| 0 <= i < |edits| && edits[i] == e;
      assert Finder(find, original)(edits[i]).Some?;
      SnapshotOpsWhen(find, original, e);
    }
  }

  // ----- the order of the matches -----

  /** Every index below `n` once, and at which place it comes. */
  predicate IsPermutation(order: seq<nat>, places: seq<nat>, n: nat) {
    && |order| == |places| == n
    && (forall k :: 0 <= k < n ==> order[k] < n && places[order[k]] == k)
    && (forall j :: 0 <= j < n ==> places[j] < n && order[places[j]] == j)
  }

  lemma {:induction false} InsertedAt(op: Op, sorted: seq<Op>) returns (at: nat)
    ensures at <= |sorted| && Insert(op, sorted) == sorted[..at] + [op] + sorted[at..]
  {
    if sorted == [] || Before(sorted[|sorted| - 1], op) {
      at := |sorted|;
    } else {
      var n := |sorted| - 1;
      at := InsertedAt(op, sorted[..n]);
      assert sorted[..n][..at] == sorted[..at] && sorted[..n][at..] + [sorted[n]] == sorted[at..];
    }
  }

  /** Each operation of one list is one of the other, and each of them comes up once. */
  ghost predicate Rearranges(ops: seq<Op>, sorted: seq<Op>, order: seq<nat>, places: seq<nat>) {
    && |sorted| == |ops| && IsPermutation(order, places, |ops|)
    && forall k :: 0 <= k < |ops| ==> sorted[k] == ops[order[k]]
  }

  lemma {:induction false} SortRearranges(ops: seq<Op>) returns (order: seq<nat>, places: seq<nat>)
    ensures Rearranges(ops, Sort(ops), order, places)
  {
    if ops == [] {
      order, places := [], [];
    } else {
      var front, last := ops[..|ops| - 1], ops[|ops| - 1];
      var rest, where := SortRearranges(front);
      order, places := InsertRearranges(front, last, Sort(front), rest, where);
      SortOneMore(ops);
      assert ops == front + [last];
    }
  }

  lemma InsertRearranges(front: seq<Op>, last: Op, sorted: seq<Op>, rest: seq<nat>, where: seq<nat>)
    returns (order: seq<nat>, places: seq<nat>)
    requires Rearranges(front, sorted, rest, where)
    ensures Rearranges(front + [last], Insert(last, sorted), order, places)
  {
    var at := InsertedAt(last, sorted);
    order, places := InsertedOrder(rest, where, at, |front|);
    InsertedMatches(front, last, sorted, Insert(last, sorted), rest, order, at);
  }

  lemma SortOneMore(ops: seq<Op>)
    requires ops != []
    ensures Sort(ops) == Insert(ops[|ops| - 1], Sort(ops[..|ops| - 1]))
  {
  }

  lemma InsertedOrder(rest: seq<nat>, where: seq<nat>, at: nat, n: nat) returns (order: seq<nat>, places: seq<nat>)
    requires IsPermutation(rest, where, n) && at <= n
    ensures IsPermutation(order, places, n + 1)
    ensures order == rest[..at] + [n] + rest[at..]
  {
    order := rest[..at] + [n] + rest[at..];
    places := seq(n, j requires 0 <= j < n => if where[j] < at then where[j] else where[j] + 1) + [at];
  }

  lemma InsertedMatches(front: seq<Op>, last: Op, sorted: seq<Op>, longer: seq<Op>, rest: seq<nat>, order: seq<nat>,
                        at: nat)
    requires |front| == |sorted| == |rest| && at <= |front| && longer == sorted[..at] + [last] + sorted[at..]
    requires forall k :: 0 <= k < |front| ==> rest[k] < |front| && sorted[k] == front[rest[k]]
    requires order == rest[..at] + [|front|] + rest[at..]
    ensures forall k :: 0 <= k <= |front| ==> order[k] <= |front| && longer[k] == (front + [last])[order[k]]
  {
    forall k | 0 <= k <= |front|
      ensures order[k] <= |front| && longer[k] == (front + [last])[order[k]]
    {
      if k < at {
        assert order[k] == rest[k] && longer[k] == sorted[k] == front[rest[k]];
      } else if k == at {
        assert order[k] == |front| && longer[k] == last;
      } else {
        assert order[k] == rest[k - 1] && longer[k] == sorted[k - 1] == front[rest[k - 1]];
      }
    }
  }

  /**
   An applied snapshot does at every match of every edit what the edit's type says, and nothing else: taken in the
   order of their places, which do not overlap, the effects are woven into the original all at once.
   */
  lemma SnapshotMeans(find: Matcher, original: string, edits: seq<Edit>)
    returns (order: seq<nat>, places: seq<nat>, effects: seq<Op>)
    requires IsSound(find) && ApplySnapshot(find, original, edits).Some?
    ensures AllAreFound(find, original, edits)
    ensures var all := AllMatchesOf(find, original, edits, |edits|);
            && IsPermutation(order, places, |all|) && |effects| == |all|
            && (forall k :: 0 <= k < |all| ==>
                  all[order[k]].0.IsTextEdit()
                  && IsEffect(original, all[order[k]].0, all[order[k]].1, effects[k]))
            && (forall k :: 0 < k < |all| ==> all[order[k - 1]].1.end <= all[order[k]].1.start)
    ensures Fit(effects, |effects|, |original|)
    ensures ApplySnapshot(find, original, edits) == Some(Woven(original, effects, |effects|, |original|))
  {
    GatheredMeansFound(find, original, edits);
    var ops := GatheredAreMatches(find, original, edits, |edits|);
    var all := AllMatchesOf(find, original, edits, |edits|);
    order, places := SortRearranges(ops);
    var sorted, text := AppliedSnapshot(find, original, edits);
    effects := SortedEffects(original, all, ops, sorted, order);
  }

  lemma SortedEffects(original: string, all: seq<(Edit, Range)>, ops: seq<Op>, sorted: seq<Op>, order: seq<nat>)
    returns (effects: seq<Op>)
    requires Rewrites(original, all, ops) && |ops| == |sorted| == |order|
    requires forall k :: 0 <= k < |ops| ==> order[k] < |ops| && sorted[k] == ops[order[k]]
    requires Fit(sorted, |sorted|, |original|)
    ensures |effects| == |all| && Fit(effects, |effects|, |original|)
    ensures forall k :: 0 <= k < |all| ==> IsEffect(original, all[order[k]].0, all[order[k]].1, effects[k])
    ensures forall k :: 0 < k < |all| ==> all[order[k - 1]].1.end <= all[order[k]].1.start
    ensures Woven(original, effects, |effects|, |original|) == Woven(original, sorted, |sorted|, |original|)
  {
    effects := seq(|all|, k requires 0 <= k < |all| => EffectAt(original, all[order[k]].0, all[order[k]].1));
    FitInText(sorted, |sorted|, |original|);
    forall k | 0 <= k < |all|
      ensures DoesTheSame(original, sorted[k], effects[k])
      ensures IsEffect(original, all[order[k]].0, all[order[k]].1, effects[k])
    {
      EffectIsMeant(original, all[order[k]].0, all[order[k]].1);
    }
    EffectsWeave(original, sorted, effects, |sorted|, |original|);
  }

  lemma {:induction false} FitInText(ops: seq<Op>, k: nat, upTo: nat)
    requires k <= |ops| && Fit(ops, k, upTo)
    ensures forall j :: 0 <= j < k ==> ops[j].start <= ops[j].end <= upTo
    ensures forall j :: 0 < j < k ==> ops[j - 1].end <= ops[j].start
  {
    if 0 < k {
      FitInText(ops, k - 1, ops[k - 1].start);
    }
  }

  // ----- when the snapshot is taken -----

  predicate Apart(a: Range, b: Range) {
    a.end <= b.start || b.end <= a.start
  }

  /** An edit behind the first one names lines. */
  predicate SomeLaterNamesLines(edits: seq<Edit>) {
    exists i :: 1 <= i < |edits| && (edits[i].ReplaceLines? || edits[i].DeleteLines? || edits[i].guards.lines.Some?)
  }

  predicate NoneOverlap(all: seq<(Edit, Range)>) {
    forall j, k :: 0 <= j < k < |all| ==> Apart(all[j].1, all[k].1)
  }

  /**
   The snapshot is taken if and only if an edit behind the first one names lines, all edits are text edits found in
   the original as often as expected, and no two of their matches overlap.
   */
  lemma SnapshotIsTakenExactlyWhen(find: Matcher, original: string, edits: seq<Edit>)
    requires IsSound(find)
    ensures ApplySnapshot(find, original, edits).Some? <==>
              && SomeLaterNamesLines(edits) && AllAreFound(find, original, edits)
              && NoneOverlap(AllMatchesOf(find, original, edits, |edits|))
  {
    LaterLinesMakeCandidate(edits);
    if AllSnapshotOps(find, original, edits).Some? {
      GatheredMeansFound(find, original, edits);
    }
    if AllAreFound(find, original, edits) {
      var ops := GatheredAreMatches(find, original, edits, |edits|);
      var all := AllMatchesOf(find, original, edits, |edits|);
      SnapshotOpsAreProper(find, original, edits);
      var order, places := SortRearranges(ops);
      SortIsSorted(ops);
      forall op | op in ops
        ensures op.start < op.end <= |original|
      {
        assert IsProper(op, |original|);
      }
      NeighboursDecide(all, ops, Sort(ops), order, places, |original|);
    }
  }

  lemma LaterLinesMakeCandidate(edits: seq<Edit>)
    ensures IsCandidate(edits) <==> SomeLaterNamesLines(edits)
  {
    forall i | 1 <= i < |edits|
      ensures NamesLines(edits[i]) <==>
                edits[i].ReplaceLines? || edits[i].DeleteLines? || edits[i].guards.lines.Some?
    {
    }
  }

  /** After sorting, overlaps show between neighbours. */
  lemma NeighboursDecide(all: seq<(Edit, Range)>, ops: seq<Op>, sorted: seq<Op>, order: seq<nat>, places: seq<nat>,
                         n: nat)
    requires |all| == |ops| == |sorted| && IsPermutation(order, places, |ops|) && IsSorted(sorted)
    requires forall j :: 0 <= j < |all| ==> ops[j].start == all[j].1.start && ops[j].end == all[j].1.end
    requires forall op :: op in ops ==> op.start < op.end <= n
    requires forall k :: 0 <= k < |ops| ==> sorted[k] == ops[order[k]]
    ensures Overlaps(sorted) <==> !NoneOverlap(all)
  {
    forall k | 0 <= k < |sorted|
      ensures sorted[k].start < sorted[k].end <= n
    {
      assert ops[order[k]] in ops;
    }
    if Overlaps(sorted) {
      var i :| 0 < i < |sorted| && sorted[i].start < sorted[i - 1].end;
      assert Before(sorted[i - 1], sorted[i]);
      OverlapShows(all, order[i - 1], order[i], sorted[i - 1], sorted[i]);
    } else {
      forall j, k | 0 <= j < k < |all|
        ensures Apart(all[j].1, all[k].1)
      {
        var a, b := places[j], places[k];
        assert sorted[a] == ops[j] && sorted[b] == ops[k];
        SortedApart(sorted, if a < b then a else b, if a < b then b else a);
      }
    }
  }

  lemma OverlapShows(all: seq<(Edit, Range)>, j: nat, k: nat, a: Op, b: Op)
    requires j < |all| && k < |all| && j != k && a.start <= b.start < a.end && b.start < b.end
    requires all[j].1.start == a.start && all[j].1.end == a.end && all[k].1.start == b.start && all[k].1.end == b.end
    ensures !NoneOverlap(all)
  {
    assert !Apart(all[j].1, all[k].1) && !Apart(all[k].1, all[j].1);
  }

  lemma {:induction false} SortedApart(sorted: seq<Op>, a: nat, b: nat)
    requires a < b < |sorted| && !Overlaps(sorted)
    requires forall k :: 0 <= k < |sorted| ==> sorted[k].start < sorted[k].end
    ensures sorted[a].end <= sorted[b].start
    decreases b - a
  {
    assert sorted[b - 1].end <= sorted[b].start;
    if a < b - 1 {
      SortedApart(sorted, a, b - 1);
    }
  }

  // ----- a list of edits -----

  /** Each edit works on what the one before it left. */
  ghost predicate IsCourse(find: Matcher, original: string, edits: seq<Edit>, texts: seq<string>) {
    && 0 < |texts| <= |edits| + 1 && texts[0] == original
    && forall i :: 0 < i < |texts| ==> LeadsTo(find, edits, texts[i - 1], i - 1, texts[i])
  }

  ghost predicate LeadsTo(find: Matcher, edits: seq<Edit>, text: string, i: nat, next: string)
    requires i < |edits|
  {
    ApplyEdit(find, text, edits[i], i) == Edited(next)
  }

  lemma CourseGrows(find: Matcher, original: string, edits: seq<Edit>, texts: seq<string>, next: string)
    requires IsCourse(find, original, edits, texts) && |texts| <= |edits|
    requires LeadsTo(find, edits, texts[|texts| - 1], |texts| - 1, next)
    ensures IsCourse(find, original, edits, texts + [next])
  {
    var longer := texts + [next];
    forall i | 0 < i < |longer|
      ensures LeadsTo(find, edits, longer[i - 1], i - 1, longer[i])
    {
      if i < |texts| {
        assert longer[i - 1] == texts[i - 1] && longer[i] == texts[i];
      }
    }
  }

  lemma InTurnFurther(find: Matcher, text: string, edits: seq<Edit>, i: nat) returns (step: EditResult)
    requires i < |edits|
    ensures step == ApplyEdit(find, text, edits[i], i)
    ensures step.Failed? ==> ApplyInTurn(find, text, edits, i) == step
    ensures step.Edited? ==> ApplyInTurn(find, text, edits, i) == ApplyInTurn(find, step.text, edits, i + 1)
  {
    step := ApplyEdit(find, text, edits[i], i);
  }

  lemma {:induction false} InTurnIsCourse(find: Matcher, original: string, edits: seq<Edit>, texts: seq<string>)
    returns (all: seq<string>)
    requires IsCourse(find, original, edits, texts)
    ensures IsCourse(find, original, edits, all)
    ensures match ApplyInTurn(find, texts[|texts| - 1], edits, |texts| - 1)
            case Edited(text) => |all| == |edits| + 1 && text == all[|edits|]
            case Failed(error) =>
              |all| <= |edits| && ApplyEdit(find, all[|all| - 1], edits[|all| - 1], |all| - 1) == Failed(error)
    decreases |edits| - |texts|
  {
    var i := |texts| - 1;
    all := texts;
    if i < |edits| {
      var step := InTurnFurther(find, texts[i], edits, i);
      if step.Edited? {
        CourseGrows(find, original, edits, texts, step.text);
        all := InTurnIsCourse(find, original, edits, texts + [step.text]);
      }
    }
  }

  /**
   A list of edits that is not taken as a snapshot is carried out edit by edit in its order, each on what the one
   before it left, up to the first one that fails, whose error is the answer.
   */
  lemma EditsAreAnswered(find: Matcher, original: string, edits: seq<Edit>) returns (texts: seq<string>)
    requires ApplySnapshot(find, original, edits).None?
    ensures IsCourse(find, original, edits, texts)
    ensures match ApplyEdits(find, original, edits)
            case Edited(text) => |texts| == |edits| + 1 && text == texts[|edits|]
            case Failed(error) =>
              |texts| <= |edits|
              && ApplyEdit(find, texts[|texts| - 1], edits[|texts| - 1], |texts| - 1) == Failed(error)
  {
    texts := InTurnIsCourse(find, original, edits, [original]);
  }
}
