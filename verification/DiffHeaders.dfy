/**
 The printed hunk as any reader of unified diffs takes it: its header states where both sides stand and how many
 lines they have, and around the changed lines there are up to three lines of context.
 */
module DiffHeaders {
  import opened Options
  import opened LineSpans
  import opened PatchApply
  import opened UnifiedDiff
  import opened DiffRoundTrip

  // ----- reading a header -----

  datatype Header = Header(oldStart: nat, oldCount: nat, newStart: nat, newCount: nat)

  /** The rest of a text behind a mark. */
  function Behind(mark: string, text: string): Option<string> {
    if mark <= text then Some(text[|mark|..]) else None
  }

  /** A number and the rest behind it. */
  function ReadNumber(text: string): Option<(nat, string)> {
    var n := DigitRun(text);
    if n == 0 then None else Some((Number(text[..n]), text[n..]))
  }

  function ReadPair(text: string): Option<((nat, nat), string)> {
    match ReadNumber(text)
    case None => None
    case Some((first, rest)) =>
      match Behind(",", rest)
      case None => None
      case Some(more) =>
        match ReadNumber(more)
        case None => None
        case Some((second, last)) => Some(((first, second), last))
  }

  /** "@@ -start,count +start,count @@". */
  function ReadHeader(text: string): Option<Header> {
    match Behind("@@ -", text)
    case None => None
    case Some(rest) =>
      match ReadPair(rest)
      case None => None
      case Some((older, more)) =>
        match Behind(" +", more)
        case None => None
        case Some(last) =>
          match ReadPair(last)
          case None => None
          case Some((newer, end)) =>
            if end == " @@" then Some(Header(older.0, older.1, newer.0, newer.1)) else None
  }

  lemma BehindMark(mark: string, rest: string)
    ensures Behind(mark, mark + rest) == Some(rest)
  {
  }

  lemma {:induction false} NumberIsRead(n: nat, rest: string)
    requires rest != "" && !IsDigit(rest[0])
    ensures ReadNumber(Decimal(n) + rest) == Some((n, rest))
  {
    var digits := Decimal(n);
    RunOfDigits(digits, rest);
    NumberOfDecimal(n);
    assert (digits + rest)[..|digits|] == digits && (digits + rest)[|digits|..] == rest;
  }

  lemma {:induction false} PairIsRead(first: nat, second: nat, rest: string)
    requires rest != "" && !IsDigit(rest[0])
    ensures ReadPair(Decimal(first) + ("," + (Decimal(second) + rest))) == Some(((first, second), rest))
  {
    NumberIsRead(first, "," + (Decimal(second) + rest));
    BehindMark(",", Decimal(second) + rest);
    NumberIsRead(second, rest);
  }

  lemma PairsAreRead(rest: string, last: string, older: (nat, nat), newer: (nat, nat))
    requires ReadPair(rest) == Some((older, " +" + last)) && ReadPair(last) == Some((newer, " @@"))
    ensures ReadHeader("@@ -" + rest) == Some(Header(older.0, older.1, newer.0, newer.1))
  {
    BehindMark("@@ -", rest);
    BehindMark(" +", last);
  }

  lemma Nested(a: string, b: string, c: string, d: string)
    ensures "@@ -" + a + ("," + (b + " +" + c + "," + d + " @@"))
         == "@@ -" + (a + ("," + (b + (" +" + (c + ("," + (d + " @@")))))))
  {
    TextsRegroup(b, " +", c + ("," + (d + " @@")));
    TextsRegroup(b + " +", c, "," + (d + " @@"));
    TextsRegroup(b + " +" + c, ",", d + " @@");
    TextsRegroup(b + " +" + c + ",", d, " @@");
    TextsRegroup("@@ -", a, "," + (b + " +" + c + "," + d + " @@"));
  }

  lemma TextsRegroup(front: string, middle: string, back: string)
    ensures front + (middle + back) == front + middle + back
  {
  }

  /** The numbers of a header as texts, with what each is read as. */
  predicate IsNumeral(text: string, n: nat) {
    text == Decimal(n)
  }

  lemma PairOfNumeralsIsRead(a: string, b: string, first: nat, second: nat, rest: string)
    requires IsNumeral(a, first) && IsNumeral(b, second) && rest != "" && !IsDigit(rest[0])
    ensures ReadPair(a + ("," + (b + rest))) == Some(((first, second), rest))
  {
    PairIsRead(first, second, rest);
  }

  lemma NumeralsAreRead(a: string, b: string, c: string, d: string, numbers: Header)
    requires IsNumeral(a, numbers.oldStart) && IsNumeral(b, numbers.oldCount)
    requires IsNumeral(c, numbers.newStart) && IsNumeral(d, numbers.newCount)
    ensures ReadHeader("@@ -" + a + ("," + (b + " +" + c + "," + d + " @@"))) == Some(numbers)
  {
    var last := c + ("," + (d + " @@"));
    PairOfNumeralsIsRead(c, d, numbers.newStart, numbers.newCount, " @@");
    PairOfNumeralsIsRead(a, b, numbers.oldStart, numbers.oldCount, " +" + last);
    PairsAreRead(a + ("," + (b + (" +" + last))), last, (numbers.oldStart, numbers.oldCount),
                 (numbers.newStart, numbers.newCount));
    Nested(a, b, c, d);
  }

  lemma RestText(oldCount: nat, newStart: nat, newCount: nat)
    returns (text: string, q: string, r: string, s: string)
    ensures IsNumeral(q, oldCount) && IsNumeral(r, newStart + 1) && IsNumeral(s, newCount)
    ensures text == HeaderRest(oldCount, newStart, newCount) && text == "," + (q + " +" + r + "," + s + " @@")
  {
    q, r, s := Decimal(oldCount), Decimal(newStart + 1), Decimal(newCount);
    text := HeaderRest(oldCount, newStart, newCount);
  }

  lemma HeaderText(b: Window, a: Window) returns (text: string, p: string, q: string, r: string, s: string)
    requires b.start <= b.end && a.start <= a.end
    ensures IsNumeral(p, b.start + 1) && IsNumeral(q, b.end - b.start)
    ensures IsNumeral(r, a.start + 1) && IsNumeral(s, a.end - a.start)
    ensures text == HunkHeader(b, a) && text == "@@ -" + p + ("," + (q + " +" + r + "," + s + " @@"))
  {
    var rest;
    rest, q, r, s := RestText(b.end - b.start, a.start, a.end - a.start);
    p, text := Decimal(b.start + 1), HunkHeader(b, a);
  }

  lemma {:induction false} HeaderIsRead(b: Window, a: Window) returns (text: string)
    requires b.start <= b.end && a.start <= a.end
    ensures text == HunkHeader(b, a)
    ensures ReadHeader(text) == Some(Header(b.start + 1, b.end - b.start, a.start + 1, a.end - a.start))
  {
    var p, q, r, s;
    text, p, q, r, s := HeaderText(b, a);
    NumeralsAreRead(p, q, r, s, Header(b.start + 1, b.end - b.start, a.start + 1, a.end - a.start));
  }

  // ----- the header and the body -----

  /** The context of a window: what it has of the common lines in front of the changed ones and behind them. */
  lemma ContextOf(lines: seq<string>, prefix: nat, suffix: nat)
    requires prefix + suffix <= |lines|
    ensures var w := WindowOf(|lines|, prefix, suffix);
            && w.start == prefix - Min(3, prefix) && w.changed == prefix && w.changedEnd == |lines| - suffix
            && lines[w.start..w.changed] == lines[..prefix][prefix - Min(3, prefix)..]
            && lines[w.changedEnd..w.end] == lines[|lines| - suffix..][..Min(3, suffix)]
  {
  }

  lemma WindowsAlike(before: seq<string>, after: seq<string>, prefix: nat, suffix: nat)
    requires IsSpan(before, after, prefix, suffix)
    ensures var b, a := WindowOf(|before|, prefix, suffix), WindowOf(|after|, prefix, suffix);
            && b.start == a.start && before[b.start..b.changed] == after[a.start..a.changed]
            && before[b.changedEnd..b.end] == after[a.changedEnd..a.end]
  {
    ContextOf(before, prefix, suffix);
    ContextOf(after, prefix, suffix);
  }

  lemma NewSideIsWindow(before: seq<string>, after: seq<string>, prefix: nat, suffix: nat)
    requires IsSpan(before, after, prefix, suffix)
    ensures var a := WindowOf(|after|, prefix, suffix);
            NewSide(Body(before, after, prefix, suffix)) == after[a.start..a.end]
  {
    var b, a := WindowOf(|before|, prefix, suffix), WindowOf(|after|, prefix, suffix);
    WindowsAlike(before, after, prefix, suffix);
    SidesOfFour(before[b.start..b.changed], before[b.changed..b.changedEnd], after[a.changed..a.changedEnd],
                before[b.changedEnd..b.end]);
    TwoSlices(after, a.start, a.changed, a.changedEnd);
    TwoSlices(after, a.start, a.changedEnd, a.end);
  }

  predicate Describes(header: Header, before: seq<string>, after: seq<string>, body: seq<HunkLine>) {
    && 1 <= header.oldStart && header.oldStart - 1 + header.oldCount <= |before|
    && 1 <= header.newStart && header.newStart - 1 + header.newCount <= |after|
    && OldSide(body) == before[header.oldStart - 1..header.oldStart - 1 + header.oldCount]
    && NewSide(body) == after[header.newStart - 1..header.newStart - 1 + header.newCount]
  }

  /** The header states the place and the length of both sides of the body. */
  lemma {:induction false} HeaderDescribesBody(before: seq<string>, after: seq<string>, prefix: nat, suffix: nat)
    returns (text: string, header: Header)
    requires IsSpan(before, after, prefix, suffix)
    ensures text == HunkHeader(WindowOf(|before|, prefix, suffix), WindowOf(|after|, prefix, suffix))
    ensures ReadHeader(text) == Some(header)
    ensures Describes(header, before, after, Body(before, after, prefix, suffix))
  {
    var b, a := WindowOf(|before|, prefix, suffix), WindowOf(|after|, prefix, suffix);
    header := Header(b.start + 1, b.end - b.start, a.start + 1, a.end - a.start);
    text := HeaderIsRead(b, a);
    BothSides(before, after, prefix, suffix, header);
  }

  lemma BothSides(before: seq<string>, after: seq<string>, prefix: nat, suffix: nat, header: Header)
    requires IsSpan(before, after, prefix, suffix)
    requires var b, a := WindowOf(|before|, prefix, suffix), WindowOf(|after|, prefix, suffix);
             header == Header(b.start + 1, b.end - b.start, a.start + 1, a.end - a.start)
    ensures Describes(header, before, after, Body(before, after, prefix, suffix))
  {
    BodyTurnsBeforeIntoAfter(before, after, prefix, suffix);
    NewSideIsWindow(before, after, prefix, suffix);
  }

  /** The removed lines, then the added ones, between up to three lines of context that both texts have. */
  lemma BodyShowsThreeLines(before: seq<string>, after: seq<string>, prefix: nat, suffix: nat)
    requires IsSpan(before, after, prefix, suffix)
    ensures var leading, trailing := Min(3, prefix), Min(3, suffix);
            Body(before, after, prefix, suffix)
              == Kinded(Context, before[prefix - leading..prefix])
                 + Kinded(Remove, before[prefix..|before| - suffix]) + Kinded(Add, after[prefix..|after| - suffix])
                 + Kinded(Context, before[|before| - suffix..|before| - suffix + trailing])
  {
    ContextOf(before, prefix, suffix);
    ContextOf(after, prefix, suffix);
  }
}
