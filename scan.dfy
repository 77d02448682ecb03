/**
 * The directory scanner: which top-level directories are searched (`isDateFormatDir`),
 * which walked entries are collected (`findVideosInDir`) and how the per-directory
 * results are put together (`findVideoFiles`). The file system is an input: a directory
 * listing, and for each searched directory the sequence of entries its walk visits.
 */
module Scan {
  import opened Wrappers
  import opened Strings
  import opened Paths

  // ---------------------------------------------------------------------------
  // The date pattern `^\d{8}$`
  // ---------------------------------------------------------------------------

  /** The character classes the pattern uses; RE2's `\d` is the ASCII range 0-9. */
  datatype CharClass = AsciiDigit

  predicate InClass(cc: CharClass, c: char) {
    cc.AsciiDigit? && '0' <= c && c <= '9'
  }

  /**
   * An anchored-or-not sequence of single-character classes. Without the multi-line
   * flag `^` matches only at the start of the text and `$` only at its very end.
   */
  datatype Pattern = Pattern(startAnchor: bool, classes: seq<CharClass>, endAnchor: bool)

  /** The counted repetition `x{n}` of a single class. */
  function Repeat(cc: CharClass, n: nat): (r: seq<CharClass>)
    ensures |r| == n && forall i :: 0 <= i < n ==> r[i] == cc
  {
    if n == 0 then [] else [cc] + Repeat(cc, n - 1)
  }

  /** `\d{8}` between `^` and `$`. */
  const DatePattern := Pattern(true, Repeat(AsciiDigit, 8), true)

  /** The pattern's classes match `s` at offset `k`. */
  predicate MatchesAt(classes: seq<CharClass>, s: string, k: nat) {
    k + |classes| <= |s| && forall i :: 0 <= i < |classes| ==> InClass(classes[i], s[k + i])
  }

  /** `Regexp.MatchString`: some offset of `s` starts a match that respects the anchors. */
  predicate MatchString(p: Pattern, s: string)
    ensures p.startAnchor && p.endAnchor ==>
      (MatchString(p, s) <==> |p.classes| == |s| && MatchesAt(p.classes, s, 0))
  {
    exists k: nat :: k <= |s|
      && (p.startAnchor ==> k == 0)
      && MatchesAt(p.classes, s, k)
      && (p.endAnchor ==> k + |p.classes| == |s|)
  }

  /** `isDateFormatDir`. */
  predicate IsDateFormatDir(name: string)
    ensures IsDateFormatDir(name) ==> |name| == 8
  {
    MatchString(DatePattern, name)
  }

  /** A name is date-formatted exactly when it is eight ASCII digits; no calendar check. */
  lemma DateFormatDirIsEightDigits(name: string)
    ensures IsDateFormatDir(name) <==> |name| == 8 && forall i :: 0 <= i < 8 ==> '0' <= name[i] <= '9'
  {
    var classes := DatePattern.classes;
    if IsDateFormatDir(name) {
      var k: nat :| k <= |name| && k == 0 && MatchesAt(classes, name, k) && k + |classes| == |name|;
      forall i | 0 <= i < 8 ensures '0' <= name[i] <= '9' {
        assert InClass(classes[i], name[k + i]);
      }
    }
    if |name| == 8 && forall i :: 0 <= i < 8 ==> '0' <= name[i] <= '9' {
      assert MatchesAt(classes, name, 0);
    }
  }

  lemma DateFormatExamples()
    ensures IsDateFormatDir("20240101")
    ensures IsDateFormatDir("99999999")
    ensures !IsDateFormatDir("2024-01-01")
    ensures !IsDateFormatDir("20240101file.txt")
    ensures !IsDateFormatDir("2024010")
    ensures !IsDateFormatDir("20240101\n")
  {
    DateFormatDirIsEightDigits("20240101");
    DateFormatDirIsEightDigits("99999999");
    DateFormatDirIsEightDigits("2024-01-01");
    DateFormatDirIsEightDigits("20240101file.txt");
    DateFormatDirIsEightDigits("2024010");
    DateFormatDirIsEightDigits("20240101\n");
  }

  // ---------------------------------------------------------------------------
  // Video files
  // ---------------------------------------------------------------------------

  /** The container extensions that are converted, in lower case. */
  const VideoExtensions: set<string> := {".mp4", ".avi", ".mkv", ".mov", ".wmv", ".flv", ".webm"}

  /** The lower-cased extension of `path` is a video container extension. */
  predicate IsVideoPath(path: string)
    ensures IsVideoPath(path) ==> '.' in FinalElement(path)
  {
    ToLower(Ext(path)) in VideoExtensions
  }

  /**
   * A file named `stem + ext` is a video exactly when its extension, lower-cased, is one
   * of the seven: the letter case of the extension does not matter, and a name without
   * an extension never qualifies.
   */
  lemma VideoPathByExtension(path: string, stem: string, ext: string)
    requires FinalElement(path) == stem + ext
    requires SplitsAsExtension(stem, ext)
    ensures IsVideoPath(path) <==> ToLower(ext) in VideoExtensions
    ensures ext == [] ==> !IsVideoPath(path)
  {
    ExtOfSplitName(path, stem, ext);
    if ext == [] {
      assert ToLower(ext) == [];
    }
  }

  /** The converter's own output extension is one the scanner collects. */
  lemma MkvIsVideoExtension()
    ensures ToLower(".mkv") in VideoExtensions
  {
    assert ToLower(".mkv") == ".mkv";
  }

  lemma ExtensionExamples()
    ensures ToLower(".MKV") in VideoExtensions
    ensures ToLower(".Mp4") in VideoExtensions
    ensures ToLower(".webm") in VideoExtensions
    ensures ToLower(".txt") !in VideoExtensions
  {
    assert ToLower(".MKV") == ".mkv";
    assert ToLower(".Mp4") == ".mp4";
    assert ToLower(".webm") == ".webm";
    assert ToLower(".txt") == ".txt";
  }

  /** One call of the walk callback: an entry, or an error reported for a path. */
  datatype WalkEvent = Visit(path: string, isDir: bool) | VisitError(path: string)

  /** The callback collects exactly the visited non-directories with a video extension. */
  predicate Collects(ev: WalkEvent) {
    ev.Visit? && !ev.isDir && IsVideoPath(ev.path)
  }

  /**
   * The names of the items `keep` accepts, in their original order: the shape of both
   * scanning loops, which append a name for each qualifying item.
   */
  function Selected<T>(xs: seq<T>, keep: T -> bool, name: T -> string): (r: seq<string>)
    ensures |r| <= |xs|
  {
    if xs == [] then []
    else
      var x := xs[|xs| - 1];
      Selected(xs[..|xs| - 1], keep, name) + (if keep(x) then [name(x)] else [])
  }

  /** Order is kept: the selection from a concatenation is the concatenation of the selections. */
  lemma {:induction false} SelectedAppend<T>(a: seq<T>, b: seq<T>, keep: T -> bool, name: T -> string)
    ensures Selected(a + b, keep, name) == Selected(a, keep, name) + Selected(b, keep, name)
    decreases |b|
  {
    if b == [] {
      assert a + b == a;
    } else {
      assert (a + b)[..|a + b| - 1] == a + b[..|b| - 1];
      SelectedAppend(a, b[..|b| - 1], keep, name);
    }
  }

  /** Taking one more item appends its name when it is accepted. */
  lemma SelectedStep<T>(xs: seq<T>, i: nat, keep: T -> bool, name: T -> string)
    requires i < |xs|
    ensures keep(xs[i]) ==> Selected(xs[..i + 1], keep, name) == Selected(xs[..i], keep, name) + [name(xs[i])]
    ensures !keep(xs[i]) ==> Selected(xs[..i + 1], keep, name) == Selected(xs[..i], keep, name)
  {
    assert xs[..i + 1][..i] == xs[..i];
  }

  /** A name is selected iff some accepted item carries it. */
  lemma {:induction false} SelectedMembers<T>(xs: seq<T>, keep: T -> bool, name: T -> string, n: string)
    ensures n in Selected(xs, keep, name) <==> exists k :: 0 <= k < |xs| && keep(xs[k]) && name(xs[k]) == n
  {
    if xs != [] {
      var init := xs[..|xs| - 1];
      SelectedMembers(init, keep, name, n);
      if n in Selected(init, keep, name) {
        var k :| 0 <= k < |init| && keep(init[k]) && name(init[k]) == n;
        assert xs[k] == init[k];
      }
      if exists k :: 0 <= k < |xs| && keep(xs[k]) && name(xs[k]) == n {
        var k :| 0 <= k < |xs| && keep(xs[k]) && name(xs[k]) == n;
        if k < |init| {
          assert init[k] == xs[k];
        }
      }
    }
  }

  function EventPath(ev: WalkEvent): string {
    ev.path
  }

  /** The paths the callback collects from `events`, in walk order. */
  function VideoPaths(events: seq<WalkEvent>): seq<string> {
    Selected(events, Collects, EventPath)
  }

  /** A path is collected iff the walk visited it as a non-directory with a video extension. */
  lemma VideoPathsMembers(events: seq<WalkEvent>, path: string)
    ensures path in VideoPaths(events) <==>
      exists k :: 0 <= k < |events| && events[k] == Visit(path, false) && IsVideoPath(path)
  {
    SelectedMembers(events, Collects, EventPath, path);
  }

  /** An error reported for one entry is skipped: the entries after it are still collected. */
  lemma WalkErrorIsSkipped(before: seq<WalkEvent>, bad: string, after: seq<WalkEvent>)
    ensures VideoPaths(before + [VisitError(bad)] + after) == VideoPaths(before) + VideoPaths(after)
  {
    var single := Selected([VisitError(bad)], Collects, EventPath);
    assert single == [] by {
      assert [VisitError(bad)][..0] == [];
    }
    SelectedAppend(before, [VisitError(bad)], Collects, EventPath);
    SelectedAppend(before + [VisitError(bad)], after, Collects, EventPath);
  }

  /** What `filepath.WalkDir` returned for one searched directory. */
  datatype DirWalk = Walked(events: seq<WalkEvent>) | WalkFailed

  datatype ScanError = ReadBaseFailed | WalkDirFailed

  /** `findVideosInDir`: the callback appends each qualifying path in walk order. */
  method FindVideosInDir(walk: DirWalk) returns (r: Result<seq<string>, ScanError>)
    ensures walk.WalkFailed? ==> r == Err(WalkDirFailed)
    ensures walk.Walked? ==> r == Ok(VideoPaths(walk.events))
  {
    if walk.WalkFailed? {
      return Err(WalkDirFailed);
    }
    var videoFiles: seq<string> := [];
    var i := 0;
    while i < |walk.events|
      invariant 0 <= i <= |walk.events|
      invariant videoFiles == VideoPaths(walk.events[..i])
    {
      var ev := walk.events[i];
      SelectedStep(walk.events, i, Collects, EventPath);
      if ev.Visit? && !ev.isDir {
        var ext := ToLower(Ext(ev.path));
        if ext in VideoExtensions {
          videoFiles := videoFiles + [ev.path];
        }
      }
      i := i + 1;
    }
    assert walk.events[..i] == walk.events;
    return Ok(videoFiles);
  }

  // ---------------------------------------------------------------------------
  // Search roots and the combined result
  // ---------------------------------------------------------------------------

  /** An entry of the base directory's listing. */
  datatype DirEntry = DirEntry(name: string, isDir: bool)

  predicate IsSearchRoot(e: DirEntry) {
    e.isDir && IsDateFormatDir(e.name)
  }

  /** The joined paths of the date-named directories among `entries`, in listing order. */
  function DateRoots(basePath: string, entries: seq<DirEntry>): seq<string> {
    Selected(entries, IsSearchRoot, (e: DirEntry) => Join(basePath, e.name))
  }

  /** The search roots are exactly the date-named directories of the listing. */
  lemma DateRootsMembers(basePath: string, entries: seq<DirEntry>, root: string)
    ensures root in DateRoots(basePath, entries) <==>
      exists k :: 0 <= k < |entries| && entries[k].isDir && IsDateFormatDir(entries[k].name)
        && root == Join(basePath, entries[k].name)
  {
    SelectedMembers(entries, IsSearchRoot, (e: DirEntry) => Join(basePath, e.name), root);
  }

  /** Listing order is kept: the roots of a concatenated listing are concatenated. */
  lemma DateRootsAppend(basePath: string, a: seq<DirEntry>, b: seq<DirEntry>)
    ensures DateRoots(basePath, a + b) == DateRoots(basePath, a) + DateRoots(basePath, b)
  {
    SelectedAppend(a, b, IsSearchRoot, (e: DirEntry) => Join(basePath, e.name));
  }

  /** Taking one more entry appends its root when it is a date-named directory. */
  lemma DateRootsStep(basePath: string, entries: seq<DirEntry>, i: nat)
    requires i < |entries|
    ensures IsSearchRoot(entries[i]) ==>
      DateRoots(basePath, entries[..i + 1]) == DateRoots(basePath, entries[..i]) + [Join(basePath, entries[i].name)]
    ensures !IsSearchRoot(entries[i]) ==> DateRoots(basePath, entries[..i + 1]) == DateRoots(basePath, entries[..i])
  {
    SelectedStep(entries, i, IsSearchRoot, (e: DirEntry) => Join(basePath, e.name));
  }

  /** The files a root contributes: its collected files, or nothing when its walk failed. */
  function RootFiles(walk: DirWalk): seq<string> {
    match walk
    case Walked(events) => VideoPaths(events)
    case WalkFailed => []
  }

  /** The parts of all `xs`, one after the other. */
  function Concat<T>(xs: seq<T>, part: T -> seq<string>): seq<string> {
    if xs == [] then [] else Concat(xs[..|xs| - 1], part) + part(xs[|xs| - 1])
  }

  lemma {:induction false} ConcatAppend<T>(a: seq<T>, b: seq<T>, part: T -> seq<string>)
    ensures Concat(a + b, part) == Concat(a, part) + Concat(b, part)
    decreases |b|
  {
    if b == [] {
      assert a + b == a;
    } else {
      assert (a + b)[..|a + b| - 1] == a + b[..|b| - 1];
      ConcatAppend(a, b[..|b| - 1], part);
    }
  }

  lemma {:induction false} ConcatMembers<T>(xs: seq<T>, part: T -> seq<string>, n: string)
    ensures n in Concat(xs, part) <==> exists k :: 0 <= k < |xs| && n in part(xs[k])
  {
    if xs != [] {
      var init := xs[..|xs| - 1];
      ConcatMembers(init, part, n);
      if n in Concat(init, part) {
        var k :| 0 <= k < |init| && n in part(init[k]);
        assert xs[k] == init[k];
      }
      if exists k :: 0 <= k < |xs| && n in part(xs[k]) {
        var k :| 0 <= k < |xs| && n in part(xs[k]);
        if k < |init| {
          assert init[k] == xs[k];
        }
      }
    }
  }

  /** The files of all `roots`, root after root. */
  function Collected(roots: seq<string>, walkOf: string -> DirWalk): seq<string> {
    Concat(roots, (root: string) => RootFiles(walkOf(root)))
  }

  /** Searching one more root appends its files. */
  lemma CollectedStep(roots: seq<string>, j: nat, walkOf: string -> DirWalk)
    requires j < |roots|
    ensures Collected(roots[..j + 1], walkOf) == Collected(roots[..j], walkOf) + RootFiles(walkOf(roots[j]))
  {
    assert roots[..j + 1][..j] == roots[..j];
  }

  /** A root whose walk failed contributes nothing; the roots around it are still searched. */
  lemma FailedRootIsSkipped(before: seq<string>, root: string, after: seq<string>, walkOf: string -> DirWalk)
    requires walkOf(root) == WalkFailed
    ensures Collected(before + [root] + after, walkOf) == Collected(before, walkOf) + Collected(after, walkOf)
  {
    var part := (r: string) => RootFiles(walkOf(r));
    assert Concat([root], part) == [] by {
      assert [root][..0] == [];
      assert Concat([root], part) == Concat([], part) + part(root);
    }
    ConcatAppend(before, [root], part);
    ConcatAppend(before + [root], after, part);
  }

  /** A file is found iff a root whose walk succeeded collected it. */
  lemma CollectedMembers(roots: seq<string>, walkOf: string -> DirWalk, path: string)
    ensures path in Collected(roots, walkOf) <==>
      exists k :: 0 <= k < |roots| && walkOf(roots[k]).Walked? && path in VideoPaths(walkOf(roots[k]).events)
  {
    ConcatMembers(roots, (root: string) => RootFiles(walkOf(root)), path);
  }

  /** What `findVideoFiles` returns for a listing of the base path (`None`: it could not be read). */
  function FoundVideos(basePath: string, listing: Option<seq<DirEntry>>, walkOf: string -> DirWalk)
    : (r: Result<seq<string>, ScanError>)
    ensures r.Err? <==> listing.None?
  {
    match listing
    case None => Err(ReadBaseFailed)
    case Some(entries) => Ok(Collected(DateRoots(basePath, entries), walkOf))
  }

  /** Everything the search finds is a video file inside one of the date-named roots. */
  lemma FoundAreVideoFiles(basePath: string, entries: seq<DirEntry>, walkOf: string -> DirWalk, path: string)
    requires path in FoundVideos(basePath, Some(entries), walkOf).value
    ensures IsVideoPath(path)
    ensures exists root ::
      root in DateRoots(basePath, entries) && walkOf(root).Walked? && path in VideoPaths(walkOf(root).events)
  {
    var roots := DateRoots(basePath, entries);
    CollectedMembers(roots, walkOf, path);
    var k :| 0 <= k < |roots| && walkOf(roots[k]).Walked? && path in VideoPaths(walkOf(roots[k]).events);
    assert roots[k] in roots;
    VideoPathsMembers(walkOf(roots[k]).events, path);
  }

  /** With no date-named directory the search finds nothing and reports no error. */
  lemma NoDateRootsFindsNothing(basePath: string, entries: seq<DirEntry>, walkOf: string -> DirWalk)
    requires forall k :: 0 <= k < |entries| ==> !IsSearchRoot(entries[k])
    ensures FoundVideos(basePath, Some(entries), walkOf) == Ok([])
  {
    if DateRoots(basePath, entries) != [] {
      var root := DateRoots(basePath, entries)[0];
      DateRootsMembers(basePath, entries, root);
    }
  }

  /**
   * `findVideoFiles`: reads the base directory, keeps the date-named directories in
   * listing order, and appends the files of each one whose walk succeeded.
   */
  method FindVideoFiles(basePath: string, listing: Option<seq<DirEntry>>, walkOf: string -> DirWalk)
    returns (r: Result<seq<string>, ScanError>)
    ensures r == FoundVideos(basePath, listing, walkOf)
  {
    if listing.None? {
      return Err(ReadBaseFailed);
    }
    var entries := listing.value;

    var dateFormatDirs: seq<string> := [];
    var i := 0;
    while i < |entries|
      invariant 0 <= i <= |entries|
      invariant dateFormatDirs == DateRoots(basePath, entries[..i])
    {
      DateRootsStep(basePath, entries, i);
      if entries[i].isDir && IsDateFormatDir(entries[i].name) {
        dateFormatDirs := dateFormatDirs + [Join(basePath, entries[i].name)];
      }
      i := i + 1;
    }
    assert entries[..i] == entries;

    if |dateFormatDirs| == 0 {
      return Ok([]);
    }

    var allVideoFiles: seq<string> := [];
    var j := 0;
    while j < |dateFormatDirs|
      invariant 0 <= j <= |dateFormatDirs|
      invariant allVideoFiles == Collected(dateFormatDirs[..j], walkOf)
    {
      CollectedStep(dateFormatDirs, j, walkOf);
      var videoFiles := FindVideosInDir(walkOf(dateFormatDirs[j]));
      if videoFiles.Ok? {
        allVideoFiles := allVideoFiles + videoFiles.value;
      }
      j := j + 1;
    }
    assert dateFormatDirs[..j] == dateFormatDirs;
    return Ok(allVideoFiles);
  }
}
