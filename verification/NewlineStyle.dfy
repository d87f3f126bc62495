/** The line ending a text uses near a range, and adapting inserted text to it. */
module NewlineStyle {
  import opened Options
  import opened TextLines

  /** Every newline has its carriage return. */
  predicate IsCrlf(text: string) {
    forall i :: 0 <= i < |text| && text[i] == '\n' ==> 0 < i && text[i - 1] == '\r'
  }

  /** No newline has a carriage return. */
  predicate IsLf(text: string) {
    forall i :: 0 < i < |text| && text[i] == '\n' ==> text[i - 1] != '\r'
  }

  /** The offset lies between a carriage return and its newline. */
  predicate SplitsPair(text: string, offset: nat) {
    0 < offset < |text| && text[offset - 1] == '\r' && text[offset] == '\n'
  }

  /** `text.indexOf('\n', from)`. */
  function NewlineFrom(text: string, from: nat): (at: Option<nat>)
    ensures at.Some? ==> from <= at.value < |text| && text[at.value] == '\n'
    ensures forall i :: from <= i < (if at.Some? then at.value else |text|) ==> text[i] != '\n'
    decreases |text| - from
  {
    if |text| <= from then None else if text[from] == '\n' then Some(from) else NewlineFrom(text, from + 1)
  }

  /** `text.lastIndexOf('\n', upTo)`. */
  function NewlineUpTo(text: string, upTo: nat): (at: Option<nat>)
    ensures at.Some? ==> at.value <= upTo && at.value < |text| && text[at.value] == '\n'
    ensures forall i :: (if at.Some? then at.value + 1 else 0) <= i <= upTo && i < |text| ==> text[i] != '\n'
  {
    if upTo < |text| && text[upTo] == '\n' then Some(upTo)
    else if upTo == 0 then None
    else NewlineUpTo(text, upTo - 1)
  }

  function NewlineAt(text: string, at: nat): string
    requires at < |text|
  {
    if 0 < at && text[at - 1] == '\r' then "\r\n" else "\n"
  }

  /** `preferredNewlineNearRange`: the first newline inside the range, else behind it, else before it. */
  function PreferredNewline(original: string, start: nat, end: nat): string {
    var from := Min(start, |original|);
    var to := Max(from, Min(end, |original|));
    var inside, behind := NewlineFrom(original, from), NewlineFrom(original, to);
    var before := NewlineUpTo(original, Max(0, from - 1));
    if inside.Some? && inside.value < to then NewlineAt(original, inside.value)
    else if behind.Some? then NewlineAt(original, behind.value)
    else if before.Some? then NewlineAt(original, before.value)
    else "\n"
  }

  /** `adaptNewlinesToRange`. */
  function Adapt(value: string, original: string, start: nat, end: nat): string {
    if PreferredNewline(original, start, end) == "\r\n" then ToCrlf(ToLf(value)) else ToLf(value)
  }

  /** A text with newlines that all have their carriage return prefers it everywhere. */
  lemma CrlfTextPrefersCrlf(original: string, start: nat, end: nat)
    requires IsCrlf(original) && '\n' in original
    ensures PreferredNewline(original, start, end) == "\r\n"
  {
    var from := Min(start, |original|);
    var to := Max(from, Min(end, |original|));
    var inside, behind := NewlineFrom(original, from), NewlineFrom(original, to);
    var before := NewlineUpTo(original, Max(0, from - 1));
    if !(inside.Some? && inside.value < to) && behind.None? {
      var i :| 0 <= i < |original| && original[i] == '\n';
      assert i < from;
      assert before.Some?;
    }
  }

  lemma LfTextPrefersLf(original: string, start: nat, end: nat)
    requires IsLf(original)
    ensures PreferredNewline(original, start, end) == "\n"
  {
  }

  /** The newline that decides: the first one from the start of the range on, and else the last one before it. */
  predicate IsNearest(original: string, start: nat, i: nat) {
    && i < |original| && original[i] == '\n'
    && (start <= i ==> forall j :: start <= j < i ==> original[j] != '\n')
    && (i < start ==> forall j :: i < j < |original| ==> original[j] != '\n')
  }

  /** The nearest newline decides, wherever the range ends; a text without any gets plain newlines. */
  lemma NearestNewlineDecides(original: string, start: nat, end: nat, i: nat)
    requires IsNearest(original, start, i)
    ensures PreferredNewline(original, start, end) == if 0 < i && original[i - 1] == '\r' then "\r\n" else "\n"
  {
    var from := Min(start, |original|);
    var to := Max(from, Min(end, |original|));
    var inside, behind := NewlineFrom(original, from), NewlineFrom(original, to);
    var before := NewlineUpTo(original, Max(0, from - 1));
    if start <= i {
      assert inside == Some(i);
      assert to <= i ==> behind == Some(i);
    } else {
      assert behind.None? && inside.None?;
      assert before == Some(i);
    }
  }

  lemma WithoutNewlinesPlain(original: string, start: nat, end: nat)
    requires '\n' !in original
    ensures PreferredNewline(original, start, end) == "\n"
  {
  }

  lemma {:induction false} ToCrlfIsCrlf(text: string)
    ensures IsCrlf(ToCrlf(text))
  {
    if text != "" {
      ToCrlfIsCrlf(text[1..]);
      var rest := ToCrlf(text[1..]);
      if text[0] == '\n' {
        Behind("\r\n", rest);
      } else {
        Behind([text[0]], rest);
      }
    }
  }

  lemma Behind(front: string, back: string)
    requires IsCrlf(front) && IsCrlf(back)
    ensures IsCrlf(front + back)
  {
    forall i | 0 <= i < |front + back| && (front + back)[i] == '\n'
      ensures 0 < i && (front + back)[i - 1] == '\r'
    {
      if |front| <= i {
        assert back[i - |front|] == '\n';
      }
    }
  }

  /** What is inserted into a text with Windows line endings has them too. */
  lemma AdaptedIsCrlf(value: string, original: string, start: nat, end: nat)
    requires IsCrlf(original) && '\n' in original
    ensures IsCrlf(Adapt(value, original, start, end))
  {
    CrlfTextPrefersCrlf(original, start, end);
    ToCrlfIsCrlf(ToLf(value));
  }

  /** A part of such a text that does not begin inside a pair. */
  lemma PartIsCrlf(text: string, start: nat, end: nat)
    requires IsCrlf(text) && start <= end <= |text| && !SplitsPair(text, start)
    ensures IsCrlf(text[start..end])
  {
    var part := text[start..end];
    forall i | 0 <= i < |part| && part[i] == '\n'
      ensures 0 < i && part[i - 1] == '\r'
    {
      assert text[start + i] == '\n';
    }
  }
}
