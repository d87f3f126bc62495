/**
 Following the next cursor of the search that lists files only. The cursor passes over matches while a page counts
 files: every file with a match is listed, but a file can be listed twice, and this says exactly when none is.
 */
module SearchFilePages {
  import opened SearchScan
  import opened SearchPaging
  import opened SearchPreparedPaging
  import opened SearchFileList

  function Paths(cores: seq<Core>): seq<string> {
    seq(|cores|, i requires 0 <= i < |cores| => cores[i].path)
  }

  // ----- the pages -----

  /** All files a caller gathers from up to `pages` pages, each at the `next_cursor` of the one before. */
  function FollowFiles(search: nat -> State, cursor: nat, pages: nat): seq<FileRecord>
    decreases pages
  {
    if pages == 0 then []
    else
      var r := search(cursor);
      if !r.truncated then r.files else r.files + FollowFiles(search, cursor + |r.files|, pages - 1)
  }

  /** The first matches of those pages, given the matches behind the cursor. */
  function PagesOf(rest: seq<Core>, size: nat): seq<Core>
    requires 1 <= size
    decreases |rest|
  {
    var firsts := Firsts(rest);
    FirstsAreSome(rest);
    if |firsts| <= size then firsts else firsts[..size] + PagesOf(rest[size..], size)
  }

  /** The files of a search at every cursor are those of the matches behind it. */
  ghost predicate ListsFiles(lim: Limits, search: nat -> State, all: seq<Core>) {
    forall cursor: nat {:trigger At(lim, cursor)} :: FilesListed(At(lim, cursor), search(cursor), all)
  }

  predicate IsPageOf(rest: seq<Core>, size: nat, page: seq<FileRecord>, more: bool) {
    more == (size < |Firsts(rest)|) && page == Records(Upto(Firsts(rest), size))
  }

  lemma PagesFurther(all: seq<Core>, cursor: nat, size: nat, page: seq<FileRecord>, more: bool)
    requires 1 <= size && IsPageOf(Behind(all, cursor), size, page, more)
    ensures more ==> cursor + size < |all|
    ensures !more ==> Records(PagesOf(Behind(all, cursor), size)) == page
    ensures more ==>
              Records(PagesOf(Behind(all, cursor), size)) == page + Records(PagesOf(Behind(all, cursor + size), size))
  {
    var rest := Behind(all, cursor);
    var firsts := Firsts(rest);
    FirstsAreSome(rest);
    if more {
      assert Upto(firsts, size) == firsts[..size];
      assert Behind(all, cursor + size) == rest[size..];
      RecordsOfBoth(firsts[..size], PagesOf(rest[size..], size));
    } else {
      assert Upto(firsts, size) == firsts;
    }
  }

  lemma FollowFurther(lim: Limits, search: nat -> State, all: seq<Core>, cursor: nat, pages: nat,
                      page: seq<FileRecord>, more: bool)
    requires ListsFiles(lim, search, all) && 1 <= pages && IsPageOf(Behind(all, cursor), lim.maxResults, page, more)
    ensures !more ==> FollowFiles(search, cursor, pages) == page
    ensures more ==>
              FollowFiles(search, cursor, pages) == page + FollowFiles(search, cursor + lim.maxResults, pages - 1)
  {
    assert FilesListed(At(lim, cursor), search(cursor), all);
    assert search(cursor).files == page && search(cursor).truncated == more;
    assert more ==> |page| == lim.maxResults;
  }

  lemma NothingBehind(all: seq<Core>, cursor: nat, size: nat)
    requires 1 <= size && |all| <= cursor
    ensures Records(PagesOf(Behind(all, cursor), size)) == []
  {
    assert Behind(all, cursor) == [];
  }

  /** One page further on both sides. */
  lemma BothFurther(lim: Limits, search: nat -> State, all: seq<Core>, cursor: nat, pages: nat)
    returns (page: seq<FileRecord>, more: bool)
    requires ListsFiles(lim, search, all) && 1 <= lim.maxResults && 1 <= pages
    ensures more ==> cursor + lim.maxResults < |all|
    ensures !more ==> FollowFiles(search, cursor, pages) == page
    ensures !more ==> Records(PagesOf(Behind(all, cursor), lim.maxResults)) == page
    ensures more ==>
              FollowFiles(search, cursor, pages) == page + FollowFiles(search, cursor + lim.maxResults, pages - 1)
    ensures more ==>
              Records(PagesOf(Behind(all, cursor), lim.maxResults))
                == page + Records(PagesOf(Behind(all, cursor + lim.maxResults), lim.maxResults))
  {
    var firsts := Firsts(Behind(all, cursor));
    page, more := Records(Upto(firsts, lim.maxResults)), lim.maxResults < |firsts|;
    FollowFurther(lim, search, all, cursor, pages, page, more);
    PagesFurther(all, cursor, lim.maxResults, page, more);
  }

  lemma {:induction false} FollowingGathersPages(lim: Limits, search: nat -> State, all: seq<Core>, cursor: nat,
                                                 pages: nat) returns (listed: seq<FileRecord>)
    requires ListsFiles(lim, search, all) && 1 <= lim.maxResults && |all| < cursor + pages
    ensures listed == FollowFiles(search, cursor, pages)
    ensures listed == Records(PagesOf(Behind(all, cursor), lim.maxResults))
    decreases pages
  {
    if pages == 0 {
      listed := [];
      NothingBehind(all, cursor, lim.maxResults);
    } else {
      var page, more := BothFurther(lim, search, all, cursor, pages);
      if more {
        var rest := FollowingGathersPages(lim, search, all, cursor + lim.maxResults, pages - 1);
        listed := page + rest;
      } else {
        listed := page;
      }
    }
  }

  lemma RecordsOfBoth(front: seq<Core>, back: seq<Core>)
    ensures Records(front + back) == Records(front) + Records(back)
  {
  }

  // ----- every file is listed -----

  lemma FirstsOfPage(rest: seq<Core>, size: nat) returns (more: seq<Core>)
    requires size <= |rest|
    ensures Firsts(rest) == Firsts(rest[..size]) + more && |Firsts(rest[..size])| <= size
    ensures forall core :: core in more ==> core in rest[size..]
  {
    assert rest == rest[..size] + rest[size..];
    more := FirstsOfBoth(rest[..size], rest[size..]);
    FirstsAreSome(rest[..size]);
  }

  /** A page lists the files of as many matches as it may hold files. */
  lemma PageHasPath(rest: seq<Core>, size: nat, i: nat)
    requires i < size < |Firsts(rest)| && size <= |rest|
    ensures HasPath(Firsts(rest)[..size], rest[i].path)
  {
    var more := FirstsOfPage(rest, size);
    assert rest[..size][i].path == rest[i].path;
    FirstsHavePaths(rest[..size], rest[i].path);
    var first := Firsts(rest[..size]);
    assert Firsts(rest)[..size] == first + more[..size - |first|];
    HasPathOfBoth(first, more[..size - |first|], rest[i].path);
  }

  lemma {:induction false} EveryFileIsListed(rest: seq<Core>, size: nat, i: nat)
    requires 1 <= size && i < |rest|
    ensures HasPath(PagesOf(rest, size), rest[i].path)
    decreases |rest|
  {
    var firsts, path := Firsts(rest), rest[i].path;
    FirstsAreSome(rest);
    if |firsts| <= size {
      FirstsHavePaths(rest, path);
    } else {
      HasPathOfBoth(firsts[..size], PagesOf(rest[size..], size), path);
      if i < size {
        PageHasPath(rest, size, i);
      } else {
        EveryFileIsListed(rest[size..], size, i - size);
      }
    }
  }

  // ----- no file is listed twice -----

  /** Each of the first `size` matches is the only one of its file. */
  predicate Alone(rest: seq<Core>, size: nat) {
    forall i, j :: 0 <= i < size && 0 <= j < |rest| && i < |rest| && i != j ==> rest[i].path != rest[j].path
  }

  /** On every page but the last, the matches the next cursor passes over are the only ones of their files. */
  predicate PagesLineUp(rest: seq<Core>, size: nat)
    requires 1 <= size
    decreases |rest|
  {
    FirstsAreSome(rest);
    |Firsts(rest)| <= size || (Alone(rest, size) && PagesLineUp(rest[size..], size))
  }

  lemma {:induction false} FirstsBehindOthers(front: seq<Core>, back: seq<Core>)
    requires PathsDiffer(front) && forall core :: core in back ==> !HasPath(front, core.path)
    ensures Firsts(front + back) == front + Firsts(back)
    decreases |back|
  {
    if back == [] {
      assert front + back == front;
      FirstsAreSome(front);
    } else {
      var rest, last := back[..|back| - 1], back[|back| - 1];
      assert front + back == (front + rest) + [last];
      assert back == rest + [last];
      FirstsOfOneMore(front + rest, last);
      FirstsBehindOthers(front, rest);
      HasPathOfBoth(front, rest, last.path);
    }
  }

  /** Behind a page of lone matches the next page goes on where it ended. */
  lemma NextPageGoesOn(rest: seq<Core>, size: nat)
    requires size <= |rest| && Alone(rest, size)
    ensures Firsts(rest) == rest[..size] + Firsts(rest[size..])
  {
    var front, back := rest[..size], rest[size..];
    assert rest == front + back;
    forall core | core in back
      ensures !HasPath(front, core.path)
    {
      var j :| 0 <= j < |back| && back[j] == core;
      assert rest[size + j] == core;
    }
    FirstsBehindOthers(front, back);
  }

  lemma {:induction false} LinedUpPagesListOnce(rest: seq<Core>, size: nat)
    requires 1 <= size && PagesLineUp(rest, size)
    ensures PagesOf(rest, size) == Firsts(rest)
    decreases |rest|
  {
    FirstsAreSome(rest);
    if size < |Firsts(rest)| {
      NextPageGoesOn(rest, size);
      LinedUpPagesListOnce(rest[size..], size);
    }
  }

  lemma {:induction false} FirstsDiffer(cores: seq<Core>)
    ensures PathsDiffer(Firsts(cores))
  {
    if cores != [] {
      var front, last := cores[..|cores| - 1], cores[|cores| - 1];
      FirstsDiffer(front);
      FirstsHavePaths(front, last.path);
      if !HasPath(front, last.path) {
        OneMoreDiffers(Firsts(front), last);
      }
    }
  }

  /** A match that is not alone leads to a file on this page that still has matches behind the next cursor. */
  lemma RepeatedFile(rest: seq<Core>, size: nat) returns (path: string)
    requires size < |Firsts(rest)| && size <= |rest| && !Alone(rest, size)
    ensures HasPath(Firsts(rest)[..size], path) && HasPath(rest[size..], path)
  {
    if i, j :| 0 <= i < size && size <= j < |rest| && rest[i].path == rest[j].path {
      path := rest[i].path;
      PageHasPath(rest, size, i);
      assert rest[size..][j - size].path == path;
    } else {
      var i, j :| 0 <= i < size && 0 <= j < |rest| && i != j && rest[i].path == rest[j].path;
      path := FileOfLaterMatch(rest, size, i, j);
    }
  }

  lemma FileOfLaterMatch(rest: seq<Core>, size: nat, i: nat, j: nat) returns (path: string)
    requires size < |Firsts(rest)| && size <= |rest|
    requires i < size && j < size && i != j && rest[i].path == rest[j].path
    ensures HasPath(Firsts(rest)[..size], path) && HasPath(rest[size..], path)
  {
    var front := rest[..size];
    var more := FirstsOfPage(rest, size);
    FirstsAreSome(front);
    assert front[i].path == front[j].path;
    assert !PathsDiffer(front);
    var core := more[0];
    path := core.path;
    assert Firsts(rest)[..size][|Firsts(front)|] == core;
    assert core in more;
    var k :| 0 <= k < |rest[size..]| && rest[size..][k] == core;
    assert rest[size..][k].path == path;
  }

  lemma TwiceInBoth(front: seq<Core>, back: seq<Core>, path: string)
    requires HasPath(front, path) && HasPath(back, path)
    ensures !PathsDiffer(front + back)
  {
    var i :| 0 <= i < |front| && front[i].path == path;
    var j :| 0 <= j < |back| && back[j].path == path;
    assert (front + back)[i].path == (front + back)[|front| + j].path;
  }

  lemma BackDiffers(front: seq<Core>, back: seq<Core>)
    requires PathsDiffer(front + back)
    ensures PathsDiffer(back)
  {
    forall i, j | 0 <= i < j < |back|
      ensures back[i].path != back[j].path
    {
      assert (front + back)[|front| + i] == back[i] && (front + back)[|front| + j] == back[j];
    }
  }

  lemma {:induction false} ListedOnceLinesUp(rest: seq<Core>, size: nat)
    requires 1 <= size && PathsDiffer(PagesOf(rest, size))
    ensures PagesLineUp(rest, size)
    decreases |rest|
  {
    FirstsAreSome(rest);
    if size < |Firsts(rest)| {
      var page, later := Firsts(rest)[..size], PagesOf(rest[size..], size);
      BackDiffers(page, later);
      ListedOnceLinesUp(rest[size..], size);
      if !Alone(rest, size) {
        var path := RepeatedFile(rest, size);
        var k :| 0 <= k < |rest[size..]| && rest[size..][k].path == path;
        EveryFileIsListed(rest[size..], size, k);
        TwiceInBoth(page, later, path);
      }
    }
  }

  // ----- the search -----

  function FileSearch(lim: Limits, queries: nat, files: seq<File>): nat -> State {
    (cursor: nat) => Search(At(lim, cursor), queries, files)
  }

  /** No file is gathered twice. */
  predicate FilesDiffer(files: seq<FileRecord>) {
    forall i, j :: 0 <= i < j < |files| ==> files[i].path != files[j].path
  }

  lemma RecordsDiffer(cores: seq<Core>)
    ensures FilesDiffer(Records(cores)) <==> PathsDiffer(cores)
  {
    forall i, j | 0 <= i < j < |cores|
      ensures Records(cores)[i].path == cores[i].path && Records(cores)[j].path == cores[j].path
    {
    }
    if FilesDiffer(Records(cores)) {
      forall i, j | 0 <= i < j < |cores|
        ensures cores[i].path != cores[j].path
      {
        assert Records(cores)[i].path != Records(cores)[j].path;
      }
    }
  }

  /**
   Whatever is listed at every cursor: following the next cursor from the start gathers every file with a match, and
   each of them once, with its first match and in order, exactly when the pages line up.
   */
  lemma FollowingListsFilesOnceExactlyWhen(lim: Limits, search: nat -> State, all: seq<Core>, pages: nat)
    requires ListsFiles(lim, search, all) && 1 <= lim.maxResults && |all| < pages
    ensures var files := FollowFiles(search, 0, pages);
            && (forall i :: 0 <= i < |all| ==> HasFile(files, all[i].path))
            && (FilesDiffer(files) <==> PagesLineUp(all, lim.maxResults))
            && (FilesDiffer(files) ==> files == Records(Firsts(all)))
  {
    var gathered := FollowingGathersPages(lim, search, all, 0, pages);
    assert Behind(all, 0) == all;
    var listed := PagesOf(all, lim.maxResults);
    forall i | 0 <= i < |all|
      ensures HasFile(Records(listed), all[i].path)
    {
      EveryFileIsListed(all, lim.maxResults, i);
      RecordsHavePaths(listed, all[i].path);
    }
    RecordsDiffer(listed);
    if PathsDiffer(listed) {
      ListedOnceLinesUp(all, lim.maxResults);
    }
    if PagesLineUp(all, lim.maxResults) {
      LinedUpPagesListOnce(all, lim.maxResults);
      FirstsDiffer(all);
    }
  }

  lemma SearchFollowsFilesOnceExactlyWhen(lim: Limits, queries: nat, files: seq<File>, pages: nat)
    requires lim.filesOnly && 1 <= lim.maxResults && |AllMatches(lim, queries, files, 0)| < pages
    ensures var all := AllMatches(lim, queries, files, 0);
            var gathered := FollowFiles(FileSearch(lim, queries, files), 0, pages);
            && (forall i :: 0 <= i < |all| ==> HasFile(gathered, all[i].path))
            && (FilesDiffer(gathered) <==> PagesLineUp(all, lim.maxResults))
            && (FilesDiffer(gathered) ==> gathered == Records(Firsts(all)))
  {
    var search, all := FileSearch(lim, queries, files), AllMatches(lim, queries, files, 0);
    forall cursor: nat {:trigger At(lim, cursor)}
      ensures FilesListed(At(lim, cursor), search(cursor), all)
    {
      SearchListsFiles(At(lim, cursor), queries, files);
      MatchesDependOnCap(lim, At(lim, cursor), queries, files, 0);
    }
    FollowingListsFilesOnceExactlyWhen(lim, search, all, pages);
  }

  lemma PreparedFollowsFilesOnceExactlyWhen(lim: Limits, queries: nat, lines: seq<Prepared>, pages: nat)
    requires lim.filesOnly && 1 <= lim.maxResults && QueriesExist(lines, queries)
    requires |PreparedMatches(lim, map[], lines, 0)| < pages
    ensures var all := PreparedMatches(lim, map[], lines, 0);
            var gathered := FollowFiles(PreparedPages(lim, queries, lines), 0, pages);
            && (forall i :: 0 <= i < |all| ==> HasFile(gathered, all[i].path))
            && (FilesDiffer(gathered) <==> PagesLineUp(all, lim.maxResults))
            && (FilesDiffer(gathered) ==> gathered == Records(Firsts(all)))
  {
    var search, all := PreparedPages(lim, queries, lines), PreparedMatches(lim, map[], lines, 0);
    forall cursor: nat {:trigger At(lim, cursor)}
      ensures FilesListed(At(lim, cursor), search(cursor), all)
    {
      PreparedSearchListsFiles(At(lim, cursor), queries, lines);
      PreparedDependOnCap(lim, At(lim, cursor), map[], lines, 0);
    }
    FollowingListsFilesOnceExactlyWhen(lim, search, all, pages);
  }

  // ----- one match per file -----

  lemma {:induction false} DifferentPathsLineUp(rest: seq<Core>, size: nat)
    requires 1 <= size && PathsDiffer(rest)
    ensures PagesLineUp(rest, size)
    decreases |rest|
  {
    FirstsAreSome(rest);
    if size < |Firsts(rest)| {
      assert rest == rest[..size] + rest[size..];
      BackDiffers(rest[..size], rest[size..]);
      DifferentPathsLineUp(rest[size..], size);
    }
  }

  predicate DifferentFiles(files: seq<File>) {
    forall i, j :: 0 <= i < j < |files| ==> files[i].path != files[j].path
  }

  lemma {:induction false} LinesHavePath(file: File, query: nat, n: nat)
    requires n <= |file.lines|
    ensures forall core :: core in LinesCores(file, query, n) ==> core.path == file.path
    decreases |file.lines| - n
  {
    if n < |file.lines| {
      LinesHavePath(file, query, n + 1);
    }
  }

  lemma {:induction false} QueriesHavePath(file: File, queries: nat, q: nat)
    requires q <= queries
    ensures forall core :: core in QueriesCores(file, queries, q) ==> core.path == file.path
    decreases queries - q
  {
    if q < queries {
      LinesHavePath(file, q, 0);
      QueriesHavePath(file, queries, q + 1);
    }
  }

  lemma {:induction false} FileIsBehind(lim: Limits, queries: nat, files: seq<File>, n: nat, f: nat)
    requires f < n <= |files| && DifferentFiles(files)
    ensures !HasPath(AllMatches(lim, queries, files, n), files[f].path)
    decreases |files| - n
  {
    if n < |files| {
      var first := Capped(lim, QueriesCores(files[n], queries, 0));
      QueriesHavePath(files[n], queries, 0);
      assert forall i :: 0 <= i < |first| ==> first[i] in QueriesCores(files[n], queries, 0);
      FileIsBehind(lim, queries, files, n + 1, f);
      HasPathOfBoth(first, AllMatches(lim, queries, files, n + 1), files[f].path);
    }
  }

  lemma OneMatchInFront(core: Core, rest: seq<Core>)
    requires PathsDiffer(rest) && !HasPath(rest, core.path)
    ensures PathsDiffer([core] + rest)
  {
  }

  lemma {:induction false} OneMatchPerFile(lim: Limits, queries: nat, files: seq<File>, n: nat)
    requires n <= |files| && lim.maxMatchesPerFile <= 1 && DifferentFiles(files)
    ensures PathsDiffer(AllMatches(lim, queries, files, n))
    decreases |files| - n
  {
    if n < |files| {
      var cores, rest := QueriesCores(files[n], queries, 0), AllMatches(lim, queries, files, n + 1);
      OneMatchPerFile(lim, queries, files, n + 1);
      if Capped(lim, cores) == [] {
        assert [] + rest == rest;
      } else {
        QueriesHavePath(files[n], queries, 0);
        assert cores[0] in cores && Capped(lim, cores) == [cores[0]];
        FileIsBehind(lim, queries, files, n + 1, n);
        OneMatchInFront(cores[0], rest);
      }
    }
  }

  /** With at most one match per file listed, following the next cursor lists every file once. */
  lemma OneMatchPerFileListsFilesOnce(lim: Limits, queries: nat, files: seq<File>, pages: nat)
    requires lim.filesOnly && 1 <= lim.maxResults && lim.maxMatchesPerFile <= 1 && DifferentFiles(files)
    requires |AllMatches(lim, queries, files, 0)| < pages
    ensures FollowFiles(FileSearch(lim, queries, files), 0, pages)
         == Records(Firsts(AllMatches(lim, queries, files, 0)))
  {
    OneMatchPerFile(lim, queries, files, 0);
    DifferentPathsLineUp(AllMatches(lim, queries, files, 0), lim.maxResults);
    SearchFollowsFilesOnceExactlyWhen(lim, queries, files, pages);
  }

  lemma TwoFirsts(all: seq<Core>)
    requires |all| == 3 && all[0].path == all[1].path != all[2].path
    ensures |Firsts(all)| == 2 && !PagesLineUp(all, 1)
  {
    assert all == [all[0]] + [all[1]] + [all[2]];
    FirstsOfOneMore([all[0]] + [all[1]], all[2]);
    FirstsOfOneMore([all[0]], all[1]);
    FirstsAreSome([all[0]]);
    assert [all[0]][0].path == all[1].path;
    assert !Alone(all, 1);
  }

  /** Two matches in a file and one in the next, one file a page: the first file is listed again. */
  lemma NextCursorRepeatsFile(lim: Limits)
    requires lim.filesOnly && lim.maxResults == 1 && 2 <= lim.maxMatchesPerFile
    ensures var line := Line("xx", [[Found(0, 1), Found(1, 2)]]);
            var files := [File("a", [line]), File("b", [Line("x", [[Found(0, 1)]])])];
            !FilesDiffer(FollowFiles(FileSearch(lim, 1, files), 0, 4))
  {
    var line := Line("xx", [[Found(0, 1), Found(1, 2)]]);
    var files := [File("a", [line]), File("b", [Line("x", [[Found(0, 1)]])])];
    var all := TwoFilesMatches(lim, files);
    TwoFirsts(all);
    SearchFollowsFilesOnceExactlyWhen(lim, 1, files, 4);
  }

  lemma TwoFilesMatches(lim: Limits, files: seq<File>) returns (all: seq<Core>)
    requires 2 <= lim.maxMatchesPerFile
    requires files == [File("a", [Line("xx", [[Found(0, 1), Found(1, 2)]])]), File("b", [Line("x", [[Found(0, 1)]])])]
    ensures all == AllMatches(lim, 1, files, 0)
    ensures all == [Core("a", 1, 0, Found(0, 1)), Core("a", 1, 0, Found(1, 2)), Core("b", 1, 0, Found(0, 1))]
  {
    all := AllMatches(lim, 1, files, 0);
    var a, b := files[0], files[1];
    assert LinesCores(a, 0, 1) == [] && LinesCores(b, 0, 1) == [];
    assert LinesCores(a, 0, 0) == [Core("a", 1, 0, Found(0, 1)), Core("a", 1, 0, Found(1, 2))];
    assert LinesCores(b, 0, 0) == [Core("b", 1, 0, Found(0, 1))];
    assert QueriesCores(a, 1, 1) == [] && QueriesCores(b, 1, 1) == [];
    assert QueriesCores(a, 1, 0) == LinesCores(a, 0, 0) && QueriesCores(b, 1, 0) == LinesCores(b, 0, 0);
    assert AllMatches(lim, 1, files, 2) == [];
    assert AllMatches(lim, 1, files, 1) == Capped(lim, QueriesCores(b, 1, 0)) + [];
  }
}
