/** The clean-up of the paths in a patch, and which paths come through it unchanged. */
module PatchPaths {
  import opened TextLines
  import opened PatchApply
  import opened UnifiedDiff
  import opened DiffRoundTrip
  import opened PatchFormats

  // ----- the clean-up -----

  /** `text.trimEnd()`. */
  function TrimEnd(text: string): (r: string)
    ensures |r| <= |text| && r == text[..|r|]
    ensures r != "" ==> !IsSpace(r[|r| - 1])
  {
    if text != "" && IsSpace(text[|text| - 1]) then TrimEnd(text[..|text| - 1]) else text
  }

  function Trim(text: string): string {
    TrimEnd(text[SpaceRun(text)..])
  }

  /** `text.split('\t')[0]`. */
  function UpToTab(text: string): (r: string)
    ensures |r| <= |text| && r == text[..|r|] && '\t' !in r
    ensures '\t' !in text ==> r == text
  {
    if text == "" || text[0] == '\t' then "" else [text[0]] + UpToTab(text[1..])
  }

  /** `text.replaceAll('\\', '/')`. */
  function Slashes(text: string): string {
    seq(|text|, i requires 0 <= i < |text| => if text[i] == '\\' then '/' else text[i])
  }

  function DiffPath(raw: string): string {
    var trimmed := UpToTab(Trim(raw));
    var value := if StartsWith(trimmed, "a/") || StartsWith(trimmed, "b/") then trimmed[2..] else trimmed;
    if value == NO_FILE then "" else Slashes(value)
  }

  // ----- the paths that stay -----

  /** A path none of whose characters is dropped or replaced at its end or inside. */
  predicate IsKept(path: string) {
    path == "" || (!IsSpace(path[|path| - 1]) && '\t' !in path && '\\' !in path && path != NO_FILE)
  }

  /** Nor at its start. */
  predicate IsKeptBare(path: string) {
    && IsKept(path)
    && (path != "" ==> !IsSpace(path[0]))
    && !StartsWith(path, "a/") && !StartsWith(path, "b/")
  }

  lemma SlashesKeep(text: string, path: string)
    requires text <= path
    ensures Slashes(text) == path <==> text == path && '\\' !in path
  {
    if Slashes(text) == path {
      assert |text| == |path| && text == path;
      assert forall i :: 0 <= i < |path| ==> path[i] == Slashes(text)[i];
    }
  }

  lemma CutKeeps(path: string)
    ensures UpToTab(TrimEnd(path)) <= path
    ensures UpToTab(TrimEnd(path)) == path <==> path == "" || (!IsSpace(path[|path| - 1]) && '\t' !in path)
  {
    var trimmed := TrimEnd(path);
    if trimmed == path {
      assert '\t' !in path ==> UpToTab(path) == path;
    }
  }

  lemma {:induction false} TrimEndBehind(front: string, path: string)
    requires front != "" && !IsSpace(front[|front| - 1])
    ensures TrimEnd(front + path) == front + TrimEnd(path)
    decreases |path|
  {
    if path == "" {
      assert front + path == front;
    } else {
      assert (front + path)[|front + path| - 1] == path[|path| - 1];
      if IsSpace(path[|path| - 1]) {
        assert (front + path)[..|front + path| - 1] == front + path[..|path| - 1];
        TrimEndBehind(front, path[..|path| - 1]);
      }
    }
  }

  lemma {:induction false} UpToTabBehind(front: string, path: string)
    requires '\t' !in front
    ensures UpToTab(front + path) == front + UpToTab(path)
    decreases |front|
  {
    if front == "" {
      assert front + path == path;
    } else {
      assert (front + path)[1..] == front[1..] + path;
      UpToTabBehind(front[1..], path);
    }
  }

  lemma NothingIsTrimmed(prefix: string, path: string)
    requires prefix in {"a/", "b/"}
    ensures Trim(prefix + path) == TrimEnd(prefix + path)
  {
    assert (prefix + path)[0] == prefix[0];
    assert SpaceRun(prefix + path) == 0;
    assert (prefix + path)[0..] == prefix + path;
  }

  /** A prefix is cut off, and only the end of the path behind it is cleaned up. */
  lemma PrefixIsCut(prefix: string, path: string)
    requires prefix in {"a/", "b/"}
    ensures var value := UpToTab(TrimEnd(path));
            DiffPath(prefix + path) == if value == NO_FILE then "" else Slashes(value)
  {
    NothingIsTrimmed(prefix, path);
    TrimEndBehind(prefix, path);
    UpToTabBehind(prefix, TrimEnd(path));
    var value := UpToTab(TrimEnd(path));
    PrefixOfValue(prefix, value);
    assert UpToTab(Trim(prefix + path)) == prefix + value;
  }

  lemma PrefixOfValue(prefix: string, value: string)
    requires prefix in {"a/", "b/"}
    ensures (prefix + value)[2..] == value
    ensures StartsWith(prefix + value, "a/") || StartsWith(prefix + value, "b/")
  {
    assert prefix <= prefix + value;
  }

  /** Behind the prefix of the unified format a path stays exactly when it is kept. */
  lemma {:induction false} PrefixedPathStaysExactlyWhen(prefix: string, path: string)
    requires prefix in {"a/", "b/"}
    ensures DiffPath(prefix + path) == path <==> IsKept(path)
  {
    PrefixIsCut(prefix, path);
    CutKeeps(path);
    SlashesKeep(UpToTab(TrimEnd(path)), path);
  }

  /** Without a prefix it must moreover not look as if it had one. */
  lemma {:induction false} BarePathStaysExactlyWhen(path: string)
    ensures DiffPath(path) == path <==> IsKeptBare(path)
  {
    var tail := path[SpaceRun(path)..];
    var value := UpToTab(TrimEnd(tail));
    CutKeeps(tail);
    if SpaceRun(path) == 0 {
      assert tail == path;
      SlashesKeep(value, path);
    } else {
      assert path != "" && IsSpace(path[0]) && |DiffPath(path)| < |path|;
    }
    if StartsWith(path, "a/") {
      BarePrefixIsCut("a/", path);
    } else if StartsWith(path, "b/") {
      BarePrefixIsCut("b/", path);
    }
  }

  lemma BarePrefixIsCut(prefix: string, path: string)
    requires prefix in {"a/", "b/"} && prefix <= path
    ensures |DiffPath(path)| < |path|
  {
    assert path == prefix + path[2..];
    PrefixIsCut(prefix, path[2..]);
  }

  lemma Untouched(text: string)
    requires text != "" && !IsSpace(text[0]) && !IsSpace(text[|text| - 1]) && '\t' !in text
    ensures UpToTab(Trim(text)) == text
  {
    assert SpaceRun(text) == 0 && text[0..] == text;
  }

  lemma NoFileHasNoPath()
    ensures DiffPath(NO_FILE) == ""
  {
    Untouched(NO_FILE);
  }

  // ----- the round trip with paths -----

  predicate KeepsPath(marked: bool, path: string) {
    if marked then IsKeptBare(path) else IsKept(path)
  }

  lemma {:induction false} ExpectedPathExactlyWhen(marked: bool, section: Section)
    ensures ExpectedPatch(marked, section, DiffPath).path == section.path <==> KeepsPath(marked, section.path)
  {
    BarePathStaysExactlyWhen(section.path);
    PrefixedPathStaysExactlyWhen("a/", section.path);
    PrefixedPathStaysExactlyWhen("b/", section.path);
  }

  /** A parsed file has the path that was printed exactly when the clean-up keeps it. */
  lemma {:induction false} PathComesBackExactlyWhen(style: Style, sections: seq<Section>, i: nat)
    returns (file: FilePatch)
    requires forall section :: section in sections ==> ShowsSection(style, section)
    requires i < |sections|
    ensures var files := ParseUnifiedDiff(PrintPatch(style, sections), DiffPath);
            |files| == |sections| && files[i] == file
    ensures file.path == sections[i].path <==> KeepsPath(style.marked, sections[i].path)
  {
    NoFileHasNoPath();
    file := FileComesBack(style, sections, DiffPath, i);
    ExpectedPathExactlyWhen(style.marked, sections[i]);
  }

  /** In the marked format a file in a directory named "a" is taken for the file beside that directory. */
  lemma MarkedPathLosesDirectory(style: Style, path: string, hunks: seq<Hunk>)
    requires style.marked && ShowsSection(style, Updated("a/" + path, hunks)) && IsKept(path)
    ensures ParseUnifiedDiff(PrintPatch(style, [Updated("a/" + path, hunks)]), DiffPath)
         == [FilePatch(path, hunks, false, false)]
  {
    PrefixedPathStaysExactlyWhen("a/", path);
    PatchComesBack(style, [Updated("a/" + path, hunks)], DiffPath);
  }
}
