/** Splitting text at newlines, joining lines again and normalising line endings. */
module TextLines {
  /** `text.split('\n')`: never empty, and the pieces hold no newline. */
  function Split(text: string): (lines: seq<string>)
    ensures 0 < |lines|
    ensures forall line :: line in lines ==> '\n' !in line
  {
    if text == "" then [""]
    else if text[0] == '\n' then [""] + Split(text[1..])
    else
      var rest := Split(text[1..]);
      [[text[0]] + rest[0]] + rest[1..]
  }

  /** `lines.join(separator)`. */
  function Join(lines: seq<string>, separator: string): string {
    if lines == [] then ""
    else if |lines| == 1 then lines[0]
    else lines[0] + separator + Join(lines[1..], separator)
  }

  /** `text.replaceAll('\r\n', '\n')`. */
  function ToLf(text: string): string {
    if text == "" then ""
    else if 2 <= |text| && text[0] == '\r' && text[1] == '\n' then ['\n'] + ToLf(text[2..])
    else [text[0]] + ToLf(text[1..])
  }

  /** `text.replaceAll('\n', '\r\n')`. */
  function ToCrlf(text: string): string {
    if text == "" then ""
    else if text[0] == '\n' then "\r\n" + ToCrlf(text[1..])
    else [text[0]] + ToCrlf(text[1..])
  }

  lemma HeadStaysInFirst(front: seq<string>, back: seq<string>, c: char)
    requires front != []
    ensures [""] + (front + back) == ([""] + front) + back
    ensures [[c] + (front + back)[0]] + (front + back)[1..] == ([[c] + front[0]] + front[1..]) + back
  {
  }

  /** A newline between two texts separates their lines. */
  lemma {:induction false} SplitAtNewline(a: string, b: string)
    ensures Split(a + "\n" + b) == Split(a) + Split(b)
  {
    if a == "" {
      assert a + "\n" + b == "\n" + b;
      assert ("\n" + b)[1..] == b;
    } else {
      SplitAtNewline(a[1..], b);
      assert a + "\n" + b == [a[0]] + (a[1..] + "\n" + b);
      assert (a + "\n" + b)[1..] == a[1..] + "\n" + b;
      HeadStaysInFirst(Split(a[1..]), Split(b), a[0]);
    }
  }

  lemma {:induction false} SplitWithoutNewline(line: string)
    requires '\n' !in line
    ensures Split(line) == [line]
  {
    if line != "" {
      SplitWithoutNewline(line[1..]);
      assert line == [line[0]] + line[1..];
    }
  }

  /** Splitting undoes joining. */
  lemma {:induction false} SplitJoin(lines: seq<string>)
    requires lines != []
    requires forall line :: line in lines ==> '\n' !in line
    ensures Split(Join(lines, "\n")) == lines
  {
    SplitWithoutNewline(lines[0]);
    if 1 < |lines| {
      SplitJoin(lines[1..]);
      SplitAtNewline(lines[0], Join(lines[1..], "\n"));
      assert lines == [lines[0]] + lines[1..];
    }
  }

  /** Joining undoes splitting. */
  lemma {:induction false} JoinSplit(text: string)
    ensures Join(Split(text), "\n") == text
  {
    if text != "" {
      JoinSplit(text[1..]);
      var rest := Split(text[1..]);
      if text[0] == '\n' {
        assert ([""] + rest)[1..] == rest;
      } else {
        var head := [text[0]] + rest[0];
        assert ([head] + rest[1..])[1..] == rest[1..];
        if 1 < |rest| {
          assert text == [text[0]] + (rest[0] + "\n" + Join(rest[1..], "\n"));
        }
      }
    }
  }

  // ----- blanks -----

  /** `/\s/`. */
  predicate IsSpace(c: char) {
    var code := c as int;
    9 <= code <= 13 || code == 32 || code == 160 || code == 0x1680 || 0x2000 <= code <= 0x200A
    || code == 0x2028 || code == 0x2029 || code == 0x202F || code == 0x205F || code == 0x3000 || code == 0xFEFF
  }

  function SpaceRun(text: string): (n: nat)
    ensures n <= |text|
  {
    if text != "" && IsSpace(text[0]) then 1 + SpaceRun(text[1..]) else 0
  }
}
