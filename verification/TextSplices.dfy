/** Replacing several ranges of a text: from right to left, as the offsets stay valid, or all at once. */
module TextSplices {
  import opened Options
  import opened NewlineStyle

  datatype Op = Op(start: nat, end: nat, replacement: string)

  /** `text.slice(0, i)` and `text.slice(i)`. */
  function Front(text: string, i: nat): string { text[..Min(i, |text|)] }

  function Back(text: string, i: nat): string { text[Min(i, |text|)..] }

  function Splice(text: string, op: Op): string {
    Front(text, op.start) + op.replacement + Back(text, op.end)
  }

  /** The first `k` operations, the last of them first. */
  function RightToLeft(text: string, ops: seq<Op>, k: nat): string
    requires k <= |ops|
    decreases k
  {
    if k == 0 then text else RightToLeft(Splice(text, ops[k - 1]), ops, k - 1)
  }

  /** The first `k` ranges are ascending, disjoint and end before `upTo`. */
  predicate Fit(ops: seq<Op>, k: nat, upTo: nat)
    requires k <= |ops|
  {
    k == 0 || (ops[k - 1].start <= ops[k - 1].end <= upTo && Fit(ops, k - 1, ops[k - 1].start))
  }

  /** The text up to `upTo`, from left to right: untouched gaps and replacements in turn. */
  function Woven(text: string, ops: seq<Op>, k: nat, upTo: nat): string
    requires k <= |ops| && upTo <= |text| && Fit(ops, k, upTo)
  {
    if k == 0 then text[..upTo]
    else Woven(text, ops, k - 1, ops[k - 1].start) + ops[k - 1].replacement + text[ops[k - 1].end..upTo]
  }

  lemma SpliceInFront(text: string, op: Op, upTo: nat, tail: string)
    requires op.start <= op.end <= upTo <= |text|
    ensures Splice(text[..upTo] + tail, op) == text[..op.start] + (op.replacement + text[op.end..upTo] + tail)
  {
    var all := text[..upTo] + tail;
    assert Front(all, op.start) == text[..op.start];
    assert Back(all, op.end) == text[op.end..upTo] + tail;
  }

  lemma {:induction false} RightToLeftWeaves(text: string, ops: seq<Op>, k: nat, upTo: nat, tail: string)
    requires k <= |ops| && upTo <= |text| && Fit(ops, k, upTo)
    ensures RightToLeft(text[..upTo] + tail, ops, k) == Woven(text, ops, k, upTo) + tail
  {
    if 0 < k {
      var op := ops[k - 1];
      SpliceInFront(text, op, upTo, tail);
      RightToLeftWeaves(text, ops, k - 1, op.start, op.replacement + text[op.end..upTo] + tail);
      Regroup(Woven(text, ops, k - 1, op.start), op.replacement, text[op.end..upTo], tail);
    }
  }

  lemma Regroup(a: string, b: string, c: string, d: string)
    ensures a + (b + c + d) == (a + b + c) + d
  {
  }

  /**
   Splicing ascending, disjoint ranges from right to left is concatenating gaps and replacements from left
   to right.
   */
  lemma {:induction false} SplicingIsWeaving(text: string, ops: seq<Op>)
    requires Fit(ops, |ops|, |text|)
    ensures RightToLeft(text, ops, |ops|) == Woven(text, ops, |ops|, |text|)
  {
    RightToLeftWeaves(text, ops, |ops|, |text|, "");
    assert text[..|text|] == text;
    NothingBehind(text);
    NothingBehind(Woven(text, ops, |ops|, |text|));
  }

  lemma NothingBehind(text: string)
    ensures text + "" == text
  {
  }

  // ----- what lies outside the ranges -----

  /** How far the operations that end before `p` move the character at `p`. */
  function Shift(ops: seq<Op>, k: nat, p: nat): int
    requires k <= |ops|
  {
    if k == 0 then 0
    else
      var op := ops[k - 1];
      Shift(ops, k - 1, p) + (if op.end <= p then |op.replacement| - (op.end - op.start) else 0)
  }

  predicate Outside(ops: seq<Op>, p: nat) {
    forall i :: 0 <= i < |ops| ==> p < ops[i].start || ops[i].end <= p
  }

  lemma {:induction false} ShiftBehindAll(ops: seq<Op>, k: nat, upTo: nat, p: nat)
    requires k <= |ops| && Fit(ops, k, upTo) && upTo <= p
    ensures Shift(ops, k, p) == Shift(ops, k, upTo)
  {
    if 0 < k {
      ShiftBehindAll(ops, k - 1, ops[k - 1].start, p);
      ShiftBehindAll(ops, k - 1, ops[k - 1].start, upTo);
    }
  }

  lemma {:induction false} WovenLength(text: string, ops: seq<Op>, k: nat, upTo: nat)
    requires k <= |ops| && upTo <= |text| && Fit(ops, k, upTo)
    ensures |Woven(text, ops, k, upTo)| == upTo + Shift(ops, k, upTo)
  {
    if 0 < k {
      WovenLength(text, ops, k - 1, ops[k - 1].start);
      ShiftBehindAll(ops, k - 1, ops[k - 1].start, upTo);
    }
  }

  /** A character outside all ranges is still there, moved by what the ranges before it grew. */
  lemma {:induction false} OutsideIsPreserved(text: string, ops: seq<Op>, k: nat, upTo: nat, p: nat)
    requires k <= |ops| && upTo <= |text| && Fit(ops, k, upTo) && p < upTo
    requires forall i :: 0 <= i < k ==> p < ops[i].start || ops[i].end <= p
    ensures 0 <= p + Shift(ops, k, p) < |Woven(text, ops, k, upTo)|
    ensures Woven(text, ops, k, upTo)[p + Shift(ops, k, p)] == text[p]
  {
    if 0 < k {
      var op := ops[k - 1];
      if p < op.start {
        OutsideIsPreserved(text, ops, k - 1, op.start, p);
      } else {
        WovenLength(text, ops, k - 1, op.start);
        ShiftBehindAll(ops, k - 1, op.start, p);
        assert text[op.end..upTo][p - op.end] == text[p];
      }
    }
  }

  // ----- carriage returns -----

  /** Replacements with Windows line endings, between pairs, keep a text with Windows line endings. */
  lemma {:induction false} WovenIsCrlf(text: string, ops: seq<Op>, k: nat, upTo: nat)
    requires k <= |ops| && upTo <= |text| && Fit(ops, k, upTo) && IsCrlf(text)
    requires forall i :: 0 <= i < k ==> IsCrlf(ops[i].replacement) && !SplitsPair(text, ops[i].end)
    ensures IsCrlf(Woven(text, ops, k, upTo))
  {
    if 0 < k {
      var op := ops[k - 1];
      WovenIsCrlf(text, ops, k - 1, op.start);
      PartIsCrlf(text, op.end, upTo);
      Behind(Woven(text, ops, k - 1, op.start), op.replacement);
      Behind(Woven(text, ops, k - 1, op.start) + op.replacement, text[op.end..upTo]);
    }
  }

  // ----- the order of the operations -----

  predicate Before(a: Op, b: Op) {
    a.start < b.start || (a.start == b.start && a.end <= b.end)
  }

  /** A stable sort by start and end. */
  function Insert(op: Op, sorted: seq<Op>): (longer: seq<Op>)
    ensures |longer| == |sorted| + 1
  {
    if sorted == [] then [op]
    else if Before(sorted[|sorted| - 1], op) then sorted + [op]
    else Insert(op, sorted[..|sorted| - 1]) + [sorted[|sorted| - 1]]
  }

  function Sort(ops: seq<Op>): (sorted: seq<Op>)
    ensures |sorted| == |ops|
  {
    if ops == [] then [] else Insert(ops[|ops| - 1], Sort(ops[..|ops| - 1]))
  }

  predicate IsSorted(ops: seq<Op>) {
    forall i :: 0 < i < |ops| ==> Before(ops[i - 1], ops[i])
  }

  lemma SplitOffLast(ops: seq<Op>)
    requires ops != []
    ensures multiset(ops) == multiset(ops[..|ops| - 1]) + multiset{ops[|ops| - 1]}
    ensures multiset(ops[..|ops| - 1]) == multiset(ops) - multiset{ops[|ops| - 1]}
  {
    assert ops == ops[..|ops| - 1] + [ops[|ops| - 1]];
  }

  lemma {:induction false} InsertKeepsAll(op: Op, sorted: seq<Op>)
    ensures multiset(Insert(op, sorted)) == multiset(sorted) + multiset{op}
  {
    if sorted != [] && !Before(sorted[|sorted| - 1], op) {
      InsertKeepsAll(op, sorted[..|sorted| - 1]);
      SplitOffLast(sorted);
    }
  }

  lemma {:induction false} SortKeepsAll(ops: seq<Op>)
    ensures multiset(Sort(ops)) == multiset(ops)
  {
    if ops != [] {
      SortKeepsAll(ops[..|ops| - 1]);
      InsertKeepsAll(ops[|ops| - 1], Sort(ops[..|ops| - 1]));
      SplitOffLast(ops);
    }
  }

  lemma {:induction false} InsertKeepsSorted(op: Op, sorted: seq<Op>)
    requires IsSorted(sorted)
    ensures IsSorted(Insert(op, sorted))
    ensures var last := Insert(op, sorted)[|sorted|];
            last == op || (sorted != [] && last == sorted[|sorted| - 1])
  {
    if sorted != [] && !Before(sorted[|sorted| - 1], op) {
      var front := sorted[..|sorted| - 1];
      InsertKeepsSorted(op, front);
      var last := Insert(op, front)[|front|];
      assert front != [] && last == front[|front| - 1] ==> Before(sorted[|sorted| - 2], sorted[|sorted| - 1]);
      assert Before(last, sorted[|sorted| - 1]);
    }
  }

  lemma {:induction false} SortIsSorted(ops: seq<Op>)
    ensures IsSorted(Sort(ops))
  {
    if ops != [] {
      SortIsSorted(ops[..|ops| - 1]);
      InsertKeepsSorted(ops[|ops| - 1], Sort(ops[..|ops| - 1]));
    }
  }

  /** Two neighbours overlap: the check after sorting. */
  predicate Overlaps(ops: seq<Op>) {
    exists i :: 0 < i < |ops| && ops[i].start < ops[i - 1].end
  }

  lemma {:induction false} NeighboursFit(ops: seq<Op>, k: nat, upTo: nat)
    requires k <= |ops| && !Overlaps(ops)
    requires forall op :: op in ops ==> op.start <= op.end
    requires 0 < k ==> ops[k - 1].end <= upTo
    ensures Fit(ops, k, upTo)
  {
    if 0 < k {
      assert ops[k - 1] in ops;
      NeighboursFit(ops, k - 1, ops[k - 1].start);
    }
  }

  lemma {:induction false} LastStartsLast(ops: seq<Op>, k: nat, upTo: nat, i: nat)
    requires k <= |ops| && Fit(ops, k, upTo) && i < k
    requires forall op :: op in ops ==> op.start < op.end
    ensures ops[i].start < upTo
  {
    if i < k - 1 {
      LastStartsLast(ops, k - 1, ops[k - 1].start, i);
    } else {
      assert ops[i] in ops;
    }
  }

  lemma {:induction false} FrontFits(ops: seq<Op>, k: nat, upTo: nat, n: nat)
    requires k <= n <= |ops| && Fit(ops, k, upTo)
    ensures Fit(ops[..n], k, upTo)
  {
    if 0 < k {
      FrontFits(ops, k - 1, ops[k - 1].start, n);
    }
  }

  lemma {:induction false} SortedUpToLast(ops: seq<Op>, i: nat)
    requires IsSorted(ops) && i < |ops|
    ensures ops[i].start <= ops[|ops| - 1].start
    decreases |ops| - i
  {
    if i < |ops| - 1 {
      SortedUpToLast(ops, i + 1);
      assert Before(ops[i + 1 - 1], ops[i + 1]);
    }
  }

  lemma SortedFront(ops: seq<Op>)
    requires ops != [] && IsSorted(ops)
    ensures IsSorted(ops[..|ops| - 1])
  {
  }

  /** Non-empty, disjoint ranges have only one ascending order. */
  lemma {:induction false} OnlyOneOrder(a: seq<Op>, b: seq<Op>, upTo: nat)
    requires multiset(a) == multiset(b) && Fit(a, |a|, upTo) && IsSorted(b)
    requires forall op :: op in a ==> op.start < op.end
    ensures a == b
  {
    AlikeInSizeAndMembers(a, b);
    if a != [] {
      var n := |a|;
      SameLast(a, b);
      FrontsAlike(a, b);
      FrontFits(a, n - 1, a[n - 1].start, n - 1);
      SortedFront(b);
      assert forall op :: op in a[..n - 1] ==> op in a;
      OnlyOneOrder(a[..n - 1], b[..n - 1], a[n - 1].start);
      SameFrontAndLast(a, b);
    }
  }

  lemma SameFrontAndLast(a: seq<Op>, b: seq<Op>)
    requires a != [] && |a| == |b| && a[..|a| - 1] == b[..|b| - 1] && a[|a| - 1] == b[|b| - 1]
    ensures a == b
  {
    assert a == a[..|a| - 1] + [a[|a| - 1]];
    assert b == b[..|b| - 1] + [b[|b| - 1]];
  }

  lemma FrontsAlike(a: seq<Op>, b: seq<Op>)
    requires a != [] && |a| == |b| && a[|a| - 1] == b[|b| - 1] && multiset(a) == multiset(b)
    ensures multiset(a[..|a| - 1]) == multiset(b[..|b| - 1])
  {
    SplitOffLast(a);
    SplitOffLast(b);
  }

  lemma AlikeInSizeAndMembers(a: seq<Op>, b: seq<Op>)
    requires multiset(a) == multiset(b)
    ensures |a| == |b| && forall op :: op in a <==> op in b
  {
    assert |multiset(a)| == |a| && |multiset(b)| == |b|;
    assert forall op :: op in a <==> op in multiset(a);
    assert forall op :: op in b <==> op in multiset(b);
  }

  lemma SameLast(a: seq<Op>, b: seq<Op>)
    requires a != [] && |a| == |b| && (forall op :: op in a <==> op in b)
    requires Fit(a, |a|, a[|a| - 1].end) && IsSorted(b) && forall op :: op in a ==> op.start < op.end
    ensures a[|a| - 1] == b[|b| - 1]
  {
    var lastA, lastB := a[|a| - 1], b[|b| - 1];
    assert lastB in a && lastA in b;
    var i :| 0 <= i < |a| && a[i] == lastB;
    var j :| 0 <= j < |b| && b[j] == lastA;
    SortedUpToLast(b, j);
    if i < |a| - 1 {
      LastStartsLast(a, |a| - 1, lastA.start, i);
    }
  }
}
