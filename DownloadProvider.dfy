/**
 * Where downloads live: the directory scheme root/source/manga/chapter, the
 * chapter directory names (current, blank-scanlator and legacy forms), the
 * lookups of chapter and temporary directories, the filter that finds
 * directories no chapter claims, and the one-off rename of legacy
 * "<id>_<scanlator>_<name>" directories.
 *
 * The file system is a tree of `Node`s; a directory listing is a node's
 * children, in listing order. `DiskUtil.buildValidFilename` and the key that
 * `equalsIgnoreCase` compares are oracles (`Naming`).
 */
module Downloads {
  import opened Wrappers
  import opened Strings
  import opened Collections
  import opened Chapters

  /** The suffix of a chapter directory while its download is in progress. */
  const TMP_DIR_SUFFIX: string := "_tmp"
  const CBZ_EXTENSION: string := ".cbz"

  datatype Naming = Naming(validFilename: string -> string, caseKey: string -> string)

  /** A file or directory; a file's name may be unknown (`null`). */
  datatype Node = Node(name: Option<string>, children: seq<Node>)

  // ---------------------------------------------------------------------------
  // findFile
  // ---------------------------------------------------------------------------

  /** A listing entry answers to `name`, exactly or ignoring case. */
  predicate NameMatches(naming: Naming, entry: Node, name: string, ignoreCase: bool) {
    entry.name.Some?
    && (if ignoreCase then naming.caseKey(entry.name.value) == naming.caseKey(name) else entry.name.value == name)
  }

  /** The first entry at or after `from` that answers to `name`. */
  function FindFrom(naming: Naming, entries: seq<Node>, name: string, ignoreCase: bool, from: nat): (r: Option<nat>)
    decreases |entries| - from
    ensures r.Some? ==> from <= r.value < |entries| && NameMatches(naming, entries[r.value], name, ignoreCase)
    ensures r.Some? ==> forall j :: from <= j < r.value ==> !NameMatches(naming, entries[j], name, ignoreCase)
    ensures r.None? ==> forall j :: from <= j < |entries| ==> !NameMatches(naming, entries[j], name, ignoreCase)
  {
    if from >= |entries| then None
    else if NameMatches(naming, entries[from], name, ignoreCase) then Some(from)
    else FindFrom(naming, entries, name, ignoreCase, from + 1)
  }

  /** `dir.findFile(name, ignoreCase)`, as the index of the entry found. */
  function FindFileIndex(naming: Naming, dir: Node, name: string, ignoreCase: bool): Option<nat> {
    FindFrom(naming, dir.children, name, ignoreCase, 0)
  }

  /** Position `i` holds the first entry of the listing that answers to `name`. */
  predicate FirstMatchAt(naming: Naming, entries: seq<Node>, name: string, ignoreCase: bool, i: nat) {
    && i < |entries| && NameMatches(naming, entries[i], name, ignoreCase)
    && forall j :: 0 <= j < i ==> !NameMatches(naming, entries[j], name, ignoreCase)
  }

  /** `dir.findFile(name, ignoreCase)`: the first entry of the listing that answers to `name`. */
  function FindFile(naming: Naming, dir: Node, name: string, ignoreCase: bool): (r: Option<Node>)
    ensures r.Some? ==> r.value in dir.children && NameMatches(naming, r.value, name, ignoreCase)
    ensures r.Some? ==> exists i: nat :: FirstMatchAt(naming, dir.children, name, ignoreCase, i) && dir.children[i] == r.value
    ensures r.None? ==> forall j :: 0 <= j < |dir.children| ==> !NameMatches(naming, dir.children[j], name, ignoreCase)
  {
    match FindFileIndex(naming, dir, name, ignoreCase)
    case Some(i) => Some(dir.children[i])
    case None => None
  }

  /** What is found by exact name is also found ignoring case. */
  lemma {:induction false} ExactFindImpliesCaseless(naming: Naming, dir: Node, name: string)
    ensures FindFile(naming, dir, name, false).Some? ==> FindFile(naming, dir, name, true).Some?
  {
    if FindFile(naming, dir, name, false).Some? {
      var i := FindFileIndex(naming, dir, name, false).value;
      assert NameMatches(naming, dir.children[i], name, true);
    }
  }

  // ---------------------------------------------------------------------------
  // Directory names
  // ---------------------------------------------------------------------------

  /** `getMangaDirName(manga)`. */
  function MangaDirName(naming: Naming, originalTitle: string): string {
    naming.validFilename(originalTitle)
  }

  /** The chapter directory name before `buildValidFilename`. */
  function RawChapterDirName(c: ChapterRecord, includeBlank: bool): (r: string)
    ensures EndsWith(r, c.name)
    ensures !IsNullOrBlank(c.scanlator) ==> StartsWith(r, c.scanlator.value + "_")
    ensures !IsNullOrBlank(c.scanlator) ==> |r| == |c.scanlator.value| + 1 + |c.name|
    ensures IsNullOrBlank(c.scanlator) ==> |r| == |c.name| + (if includeBlank then 1 else 0)
    ensures IsNullOrBlank(c.scanlator) && includeBlank ==> StartsWith(r, "_")
  {
    var r := if !IsNullOrBlank(c.scanlator) then c.scanlator.value + "_" + c.name
             else (if includeBlank then "_" else "") + c.name;
    assert r[|r| - |c.name|..] == c.name;
    assert !IsNullOrBlank(c.scanlator) ==> r[..|c.scanlator.value| + 1] == c.scanlator.value + "_";
    assert IsNullOrBlank(c.scanlator) && includeBlank ==> r[..1] == "_";
    r
  }

  /** `getChapterDirName(chapter, includeBlank)`. */
  function ChapterDirName(naming: Naming, c: ChapterRecord, includeBlank: bool := false): string {
    naming.validFilename(RawChapterDirName(c, includeBlank))
  }

  /** `includeBlank` changes the name exactly when the scanlator is null or blank. */
  lemma IncludeBlankMatters(c: ChapterRecord)
    ensures RawChapterDirName(c, true) != RawChapterDirName(c, false) <==> IsNullOrBlank(c.scanlator)
  {
    if !IsNullOrBlank(c.scanlator) {
      assert RawChapterDirName(c, true) == c.scanlator.value + "_" + c.name == RawChapterDirName(c, false);
    }
  }

  /**
   * `getValidChapterDirNames(chapter)`: the current name, the blank-scanlator
   * name and the legacy name, without repeats, the current one first.
   */
  function ValidChapterDirNames(naming: Naming, c: ChapterRecord): (r: seq<string>)
    ensures NoDuplicates(r)
    ensures 1 <= |r| <= 3 && r[0] == ChapterDirName(naming, c)
    ensures forall n :: n in r <==>
      n == ChapterDirName(naming, c) || n == ChapterDirName(naming, c, true) || n == naming.validFilename(c.name)
  {
    var xs := [ChapterDirName(naming, c), ChapterDirName(naming, c, true), naming.validFilename(c.name)];
    DistinctMembership(xs);
    Distinct(xs)
  }

  /** With a null or blank scanlator the legacy name is the current name, so at most two names remain. */
  lemma ValidNamesWithoutScanlator(naming: Naming, c: ChapterRecord)
    requires IsNullOrBlank(c.scanlator)
    ensures |ValidChapterDirNames(naming, c)| <= 2
  {
    var a, b := ChapterDirName(naming, c), ChapterDirName(naming, c, true);
    assert naming.validFilename(c.name) == a;
    DistinctRepeat([a, b], a);
    assert [a, b] + [a] == [a, b, naming.validFilename(c.name)];
  }

  /** Each name, then the same name as a CBZ archive. */
  function Candidates(names: seq<string>): (r: seq<string>)
    ensures |r| == 2 * |names|
    ensures forall i :: 0 <= i < |names| ==> r[2 * i] == names[i] && r[2 * i + 1] == names[i] + CBZ_EXTENSION
  {
    if |names| == 0 then []
    else
      var rest := Candidates(names[1..]);
      assert forall i :: 1 <= i < |names| ==> rest[2 * (i - 1)] == names[i] && rest[2 * (i - 1) + 1] == names[i] + CBZ_EXTENSION;
      [names[0], names[0] + CBZ_EXTENSION] + rest
  }

  // ---------------------------------------------------------------------------
  // Lookups
  // ---------------------------------------------------------------------------

  /** `findMangaDir(manga, source)`: the source directory, then the manga directory in it, both ignoring case. */
  function FindMangaDir(naming: Naming, root: Node, sourceDirName: string, originalTitle: string): (r: Option<Node>)
    ensures r.Some? ==>
      exists s :: s in root.children && NameMatches(naming, s, sourceDirName, true) && r.value in s.children
    ensures r.Some? ==> NameMatches(naming, r.value, MangaDirName(naming, originalTitle), true)
    ensures r.Some? ==>
      exists si: nat, mi: nat :: && FirstMatchAt(naming, root.children, sourceDirName, true, si)
                       && FirstMatchAt(naming, root.children[si].children, MangaDirName(naming, originalTitle), true, mi)
                       && r.value == root.children[si].children[mi]
    ensures FindFile(naming, root, sourceDirName, true).None? ==> r.None?
    ensures FindFile(naming, root, sourceDirName, true).Some? ==>
      var sourceDir := FindFile(naming, root, sourceDirName, true).value;
      r.None? <==> forall j :: 0 <= j < |sourceDir.children| ==>
                     !NameMatches(naming, sourceDir.children[j], MangaDirName(naming, originalTitle), true)
  {
    match FindFileIndex(naming, root, sourceDirName, true)
    case None => None
    case Some(si) =>
      var sourceDir := root.children[si];
      match FindFileIndex(naming, sourceDir, MangaDirName(naming, originalTitle), true)
      case None => None
      case Some(mi) =>
        assert FirstMatchAt(naming, root.children, sourceDirName, true, si);
        assert FirstMatchAt(naming, sourceDir.children, MangaDirName(naming, originalTitle), true, mi);
        Some(sourceDir.children[mi])
  }

  /** The first of `candidates` found in `dir`. */
  function FirstFound(naming: Naming, dir: Node, candidates: seq<string>, ignoreCase: bool): (r: Option<Node>)
    ensures r.Some? ==> r.value in dir.children
    ensures r.Some? ==> exists i :: 0 <= i < |candidates| && r == FindFile(naming, dir, candidates[i], ignoreCase)
                          && forall j :: 0 <= j < i ==> FindFile(naming, dir, candidates[j], ignoreCase).None?
    ensures r.None? ==> forall i :: 0 <= i < |candidates| ==> FindFile(naming, dir, candidates[i], ignoreCase).None?
  {
    if |candidates| == 0 then None
    else
      var hit := FindFile(naming, dir, candidates[0], ignoreCase);
      if hit.Some? then hit
      else
        var rest := FirstFound(naming, dir, candidates[1..], ignoreCase);
        assert forall i :: 1 <= i < |candidates| ==> candidates[i] == candidates[1..][i - 1];
        rest
  }

  /**
   * The first name of `names` found, each tried as a directory and then as a CBZ
   * archive: the first hit of the flattened candidate list.
   */
  function FirstFoundPairwise(naming: Naming, dir: Option<Node>, names: seq<string>): (r: Option<Node>)
    ensures dir.None? ==> r.None?
    ensures dir.Some? ==> r == FirstFound(naming, dir.value, Candidates(names), true)
  {
    if |names| == 0 || dir.None? then None
    else
      var hit := FindFile(naming, dir.value, names[0], true);
      var cs := Candidates(names);
      assert cs[1..][1..] == Candidates(names[1..]);
      if hit.Some? then hit
      else
        var cbz := FindFile(naming, dir.value, names[0] + CBZ_EXTENSION, true);
        if cbz.Some? then cbz else FirstFoundPairwise(naming, dir, names[1..])
  }

  /**
   * The first hit among the names and their archives answers to one of the
   * names or its archive, and there is none exactly when no name and no
   * archive is in the directory.
   */
  lemma CandidatesFound(naming: Naming, dir: Node, names: seq<string>, ignoreCase: bool)
    ensures var r := FirstFound(naming, dir, Candidates(names), ignoreCase);
      && (r.Some? ==> exists m :: 0 <= m < |names| && (NameMatches(naming, r.value, names[m], ignoreCase)
                                                       || NameMatches(naming, r.value, names[m] + CBZ_EXTENSION, ignoreCase)))
      && (r.None? <==> forall m :: 0 <= m < |names| ==>
                           FindFile(naming, dir, names[m], ignoreCase).None?
                           && FindFile(naming, dir, names[m] + CBZ_EXTENSION, ignoreCase).None?)
  {
    var cs := Candidates(names);
    var r := FirstFound(naming, dir, cs, ignoreCase);
    if r.Some? {
      var i :| 0 <= i < |cs| && r == FindFile(naming, dir, cs[i], ignoreCase);
      var m := CandidateName(names, i);
      assert FindFile(naming, dir, names[m], ignoreCase).Some?
             || FindFile(naming, dir, names[m] + CBZ_EXTENSION, ignoreCase).Some?;
    } else {
      forall m | 0 <= m < |names|
        ensures FindFile(naming, dir, names[m], ignoreCase).None?
        ensures FindFile(naming, dir, names[m] + CBZ_EXTENSION, ignoreCase).None?
      {
        assert cs[2 * m] == names[m] && cs[2 * m + 1] == names[m] + CBZ_EXTENSION;
      }
    }
  }

  /** Every candidate is a name or that name's archive. */
  lemma CandidateName(names: seq<string>, i: nat) returns (m: nat)
    requires i < 2 * |names|
    ensures m < |names| && (i == 2 * m || i == 2 * m + 1)
    ensures Candidates(names)[i] == if i == 2 * m then names[m] else names[m] + CBZ_EXTENSION
  {
    m := i / 2;
    assert i == 2 * m || i == 2 * m + 1;
  }

  /** No name before position `m`, and no archive of one, is in the directory. */
  predicate NoneBefore(naming: Naming, dir: Node, names: seq<string>, ignoreCase: bool, m: nat)
    requires m <= |names|
  {
    forall j :: 0 <= j < m ==> (&& FindFile(naming, dir, names[j], ignoreCase).None?
                                && FindFile(naming, dir, names[j] + CBZ_EXTENSION, ignoreCase).None?)
  }

  /**
   * The names are tried in order, each as a directory before its archive: when
   * no earlier name or archive is present, the hit is the name's own entry if it
   * is there, and otherwise its archive.
   */
  lemma CandidatesPriority(naming: Naming, dir: Node, names: seq<string>, ignoreCase: bool, m: nat)
    requires m < |names| && NoneBefore(naming, dir, names, ignoreCase, m)
    ensures FindFile(naming, dir, names[m], ignoreCase).Some? ==>
      FirstFound(naming, dir, Candidates(names), ignoreCase) == FindFile(naming, dir, names[m], ignoreCase)
    ensures FindFile(naming, dir, names[m], ignoreCase).None? && FindFile(naming, dir, names[m] + CBZ_EXTENSION, ignoreCase).Some? ==>
      FirstFound(naming, dir, Candidates(names), ignoreCase) == FindFile(naming, dir, names[m] + CBZ_EXTENSION, ignoreCase)
  {
    if FindFile(naming, dir, names[m], ignoreCase).Some? {
      DirectoryFirst(naming, dir, names, ignoreCase, m);
    } else if FindFile(naming, dir, names[m] + CBZ_EXTENSION, ignoreCase).Some? {
      ArchiveNext(naming, dir, names, ignoreCase, m);
    }
  }

  /** With nothing earlier present, a name's own entry is the hit. */
  lemma DirectoryFirst(naming: Naming, dir: Node, names: seq<string>, ignoreCase: bool, m: nat)
    requires m < |names| && NoneBefore(naming, dir, names, ignoreCase, m)
    requires FindFile(naming, dir, names[m], ignoreCase).Some?
    ensures FirstFound(naming, dir, Candidates(names), ignoreCase) == FindFile(naming, dir, names[m], ignoreCase)
  {
    CandidatesBeforeAbsent(naming, dir, names, ignoreCase, m);
    FirstFoundAt(naming, dir, Candidates(names), ignoreCase, 2 * m);
  }

  /** With nothing earlier present and no entry of the name itself, its archive is the hit. */
  lemma ArchiveNext(naming: Naming, dir: Node, names: seq<string>, ignoreCase: bool, m: nat)
    requires m < |names| && NoneBefore(naming, dir, names, ignoreCase, m)
    requires FindFile(naming, dir, names[m], ignoreCase).None?
    requires FindFile(naming, dir, names[m] + CBZ_EXTENSION, ignoreCase).Some?
    ensures FirstFound(naming, dir, Candidates(names), ignoreCase) == FindFile(naming, dir, names[m] + CBZ_EXTENSION, ignoreCase)
  {
    var cs := Candidates(names);
    CandidatesBeforeAbsent(naming, dir, names, ignoreCase, m);
    assert cs[2 * m] == names[m];
    assert forall j :: 0 <= j < 2 * m + 1 ==> FindFile(naming, dir, cs[j], ignoreCase).None?;
    FirstFoundAt(naming, dir, cs, ignoreCase, 2 * m + 1);
  }

  /** No candidate of a name before position `m` is present. */
  lemma CandidatesBeforeAbsent(naming: Naming, dir: Node, names: seq<string>, ignoreCase: bool, m: nat)
    requires m <= |names| && NoneBefore(naming, dir, names, ignoreCase, m)
    ensures forall j :: 0 <= j < 2 * m ==> FindFile(naming, dir, Candidates(names)[j], ignoreCase).None?
  {
    forall j | 0 <= j < 2 * m
      ensures FindFile(naming, dir, Candidates(names)[j], ignoreCase).None?
    {
      var q := CandidateName(names, j);
    }
  }

  /** A candidate found with every earlier one absent is the first hit. */
  lemma FirstFoundAt(naming: Naming, dir: Node, candidates: seq<string>, ignoreCase: bool, i: nat)
    requires i < |candidates| && FindFile(naming, dir, candidates[i], ignoreCase).Some?
    requires forall j :: 0 <= j < i ==> FindFile(naming, dir, candidates[j], ignoreCase).None?
    ensures FirstFound(naming, dir, candidates, ignoreCase) == FindFile(naming, dir, candidates[i], ignoreCase)
  {
    var r := FirstFound(naming, dir, candidates, ignoreCase);
    var k :| 0 <= k < |candidates| && r == FindFile(naming, dir, candidates[k], ignoreCase)
             && forall j :: 0 <= j < k ==> FindFile(naming, dir, candidates[j], ignoreCase).None?;
    assert k == i;
  }

  /** The first hit among the candidates of several names: the first name, its archive, then the rest. */
  lemma CandidatesUnfold(naming: Naming, dir: Node, names: seq<string>, ignoreCase: bool)
    requires |names| > 0
    ensures var hit, cbz := FindFile(naming, dir, names[0], ignoreCase), FindFile(naming, dir, names[0] + CBZ_EXTENSION, ignoreCase);
      FirstFound(naming, dir, Candidates(names), ignoreCase)
      == if hit.Some? then hit else if cbz.Some? then cbz else FirstFound(naming, dir, Candidates(names[1..]), ignoreCase)
  {
    var cs := Candidates(names);
    assert cs[0] == names[0] && cs[1] == names[0] + CBZ_EXTENSION;
    assert cs[1..][0] == cs[1];
    assert cs[1..][1..] == Candidates(names[1..]);
  }

  /** A candidate found by exact name means some candidate is found ignoring case. */
  lemma {:induction false} ExactFirstFoundImpliesCaseless(naming: Naming, dir: Node, candidates: seq<string>)
    ensures FirstFound(naming, dir, candidates, false).Some? ==> FirstFound(naming, dir, candidates, true).Some?
  {
    if |candidates| > 0 {
      ExactFindImpliesCaseless(naming, dir, candidates[0]);
      ExactFirstFoundImpliesCaseless(naming, dir, candidates[1..]);
    }
  }

  /**
   * `findChapterDir(chapter, manga, source)`: in the manga directory, the first
   * valid name found, each tried as a directory and then as a CBZ archive,
   * ignoring case.
   */
  function FindChapterDir(naming: Naming, root: Node, c: ChapterRecord, sourceDirName: string, originalTitle: string)
    : (r: Option<Node>)
    ensures FindMangaDir(naming, root, sourceDirName, originalTitle).None? ==> r.None?
    ensures FindMangaDir(naming, root, sourceDirName, originalTitle).Some? ==>
      var mangaDir := FindMangaDir(naming, root, sourceDirName, originalTitle).value;
      var names := ValidChapterDirNames(naming, c);
      && r == FirstFound(naming, mangaDir, Candidates(names), true)
      && (r.Some? ==> r.value in mangaDir.children
                      && exists m :: 0 <= m < |names| && (NameMatches(naming, r.value, names[m], true)
                                                          || NameMatches(naming, r.value, names[m] + CBZ_EXTENSION, true)))
      && (r.None? <==> forall m :: 0 <= m < |names| ==>
                           FindFile(naming, mangaDir, names[m], true).None?
                           && FindFile(naming, mangaDir, names[m] + CBZ_EXTENSION, true).None?)
  {
    var mangaDir := FindMangaDir(naming, root, sourceDirName, originalTitle);
    match mangaDir
    case None => FirstFoundPairwise(naming, mangaDir, ValidChapterDirNames(naming, c))
    case Some(dir) =>
      CandidatesFound(naming, dir, ValidChapterDirNames(naming, c), true);
      FirstFoundPairwise(naming, mangaDir, ValidChapterDirNames(naming, c))
  }

  /**
   * The entry `findChapterDirs` finds for one chapter: the valid names in
   * order, each as a directory and then as a CBZ archive, by exact name.
   */
  function ChapterDirIn(naming: Naming, mangaDir: Node, c: ChapterRecord): (r: Option<Node>)
    ensures r.Some? ==> r.value in mangaDir.children
    ensures r == FirstFound(naming, mangaDir, Candidates(ValidChapterDirNames(naming, c)), false)
    ensures var names := ValidChapterDirNames(naming, c);
      forall m: nat :: m < |names| && NoneBefore(naming, mangaDir, names, false, m) ==>
        && (FindFile(naming, mangaDir, names[m], false).Some? ==> r == FindFile(naming, mangaDir, names[m], false))
        && (FindFile(naming, mangaDir, names[m], false).None? && FindFile(naming, mangaDir, names[m] + CBZ_EXTENSION, false).Some?
            ==> r == FindFile(naming, mangaDir, names[m] + CBZ_EXTENSION, false))
    ensures var names := ValidChapterDirNames(naming, c);
      && (r.Some? ==> exists m :: 0 <= m < |names| && (r.value.name == Some(names[m])
                                                       || r.value.name == Some(names[m] + CBZ_EXTENSION)))
      && (r.None? <==> forall m :: 0 <= m < |names| ==>
                           FindFile(naming, mangaDir, names[m], false).None?
                           && FindFile(naming, mangaDir, names[m] + CBZ_EXTENSION, false).None?)
  {
    var names := ValidChapterDirNames(naming, c);
    CandidatesFound(naming, mangaDir, names, false);
    forall m: nat | m < |names| && NoneBefore(naming, mangaDir, names, false, m)
      ensures var r := FirstFound(naming, mangaDir, Candidates(names), false);
        && (FindFile(naming, mangaDir, names[m], false).Some? ==> r == FindFile(naming, mangaDir, names[m], false))
        && (FindFile(naming, mangaDir, names[m], false).None? && FindFile(naming, mangaDir, names[m] + CBZ_EXTENSION, false).Some?
            ==> r == FindFile(naming, mangaDir, names[m] + CBZ_EXTENSION, false))
    {
      CandidatesPriority(naming, mangaDir, names, false, m);
    }
    FirstFound(naming, mangaDir, Candidates(names), false)
  }

  /**
   * `chapters.mapNotNull { ... }` over the per-chapter lookups: every chapter
   * whose directory or archive exists contributes it, and nothing else is listed.
   */
  function ChapterDirsIn(naming: Naming, mangaDir: Node, chapters: seq<ChapterRecord>): (r: seq<Node>)
    ensures |r| <= |chapters|
    ensures forall i :: 0 <= i < |r| ==> r[i] in mangaDir.children
    ensures forall k :: 0 <= k < |chapters| && ChapterDirIn(naming, mangaDir, chapters[k]).Some?
                        ==> ChapterDirIn(naming, mangaDir, chapters[k]).value in r
    ensures forall i :: 0 <= i < |r| ==>
      exists k :: 0 <= k < |chapters| && ChapterDirIn(naming, mangaDir, chapters[k]) == Some(r[i])
  {
    MapNotNull(chapters, c => ChapterDirIn(naming, mangaDir, c))
  }

  /**
   * `findChapterDirs(chapters, manga, source)`: nothing without a manga
   * directory, otherwise the found entry of every chapter that has one.
   */
  function FindChapterDirs(naming: Naming, root: Node, chapters: seq<ChapterRecord>, sourceDirName: string,
                           originalTitle: string): (r: seq<Node>)
    ensures FindMangaDir(naming, root, sourceDirName, originalTitle).None? ==> r == []
    ensures |r| <= |chapters|
    ensures FindMangaDir(naming, root, sourceDirName, originalTitle).Some? ==>
      var mangaDir := FindMangaDir(naming, root, sourceDirName, originalTitle).value;
      && (forall i :: 0 <= i < |r| ==> r[i] in mangaDir.children)
      && (forall k :: 0 <= k < |chapters| && ChapterDirIn(naming, mangaDir, chapters[k]).Some?
                      ==> ChapterDirIn(naming, mangaDir, chapters[k]).value in r)
      && (forall i :: 0 <= i < |r| ==>
            exists k :: 0 <= k < |chapters| && ChapterDirIn(naming, mangaDir, chapters[k]) == Some(r[i]))
  {
    match FindMangaDir(naming, root, sourceDirName, originalTitle)
    case None => []
    case Some(mangaDir) => ChapterDirsIn(naming, mangaDir, chapters)
  }

  /** A chapter that `findChapterDirs` finds is also found by `findChapterDir`. */
  lemma ChapterDirsAgreeWithChapterDir(naming: Naming, root: Node, c: ChapterRecord, sourceDirName: string,
                                        originalTitle: string)
    requires FindMangaDir(naming, root, sourceDirName, originalTitle).Some?
    ensures ChapterDirIn(naming, FindMangaDir(naming, root, sourceDirName, originalTitle).value, c).Some?
            ==> FindChapterDir(naming, root, c, sourceDirName, originalTitle).Some?
  {
    var mangaDir := FindMangaDir(naming, root, sourceDirName, originalTitle).value;
    ExactFirstFoundImpliesCaseless(naming, mangaDir, Candidates(ValidChapterDirNames(naming, c)));
  }

  /** The temporary directory of one chapter: the entry named exactly its directory name plus "_tmp". */
  function TempDirIn(naming: Naming, mangaDir: Node, c: ChapterRecord): (r: Option<Node>)
    ensures r.Some? ==> r.value in mangaDir.children
                        && r.value.name == Some(ChapterDirName(naming, c) + TMP_DIR_SUFFIX)
    ensures r.None? <==> forall j :: 0 <= j < |mangaDir.children| ==>
                           mangaDir.children[j].name != Some(ChapterDirName(naming, c) + TMP_DIR_SUFFIX)
  {
    FindFile(naming, mangaDir, ChapterDirName(naming, c) + TMP_DIR_SUFFIX, false)
  }

  /** The temporary directories of the chapters that have one: every one of them, and nothing else. */
  function TempDirsIn(naming: Naming, mangaDir: Node, chapters: seq<ChapterRecord>): (r: seq<Node>)
    ensures |r| <= |chapters|
    ensures forall i :: 0 <= i < |r| ==> r[i] in mangaDir.children
    ensures forall k :: 0 <= k < |chapters| && TempDirIn(naming, mangaDir, chapters[k]).Some?
                        ==> TempDirIn(naming, mangaDir, chapters[k]).value in r
    ensures forall i :: 0 <= i < |r| ==>
      exists k :: 0 <= k < |chapters| && TempDirIn(naming, mangaDir, chapters[k]) == Some(r[i])
                  && r[i].name == Some(ChapterDirName(naming, chapters[k]) + TMP_DIR_SUFFIX)
  {
    MapNotNull(chapters, c => TempDirIn(naming, mangaDir, c))
  }

  /** `findTempChapterDirs(chapters, manga, source)`: entries named exactly a chapter's directory name plus "_tmp". */
  function FindTempChapterDirs(naming: Naming, root: Node, chapters: seq<ChapterRecord>, sourceDirName: string,
                               originalTitle: string): (r: seq<Node>)
    ensures FindMangaDir(naming, root, sourceDirName, originalTitle).None? ==> r == []
    ensures |r| <= |chapters|
    ensures FindMangaDir(naming, root, sourceDirName, originalTitle).Some? ==>
      var mangaDir := FindMangaDir(naming, root, sourceDirName, originalTitle).value;
      && (forall k :: 0 <= k < |chapters| && TempDirIn(naming, mangaDir, chapters[k]).Some?
                      ==> TempDirIn(naming, mangaDir, chapters[k]).value in r)
      && (forall i :: 0 <= i < |r| ==>
            exists k :: 0 <= k < |chapters| && TempDirIn(naming, mangaDir, chapters[k]) == Some(r[i])
                        && r[i].name == Some(ChapterDirName(naming, chapters[k]) + TMP_DIR_SUFFIX))
  {
    match FindMangaDir(naming, root, sourceDirName, originalTitle)
    case None => []
    case Some(mangaDir) => TempDirsIn(naming, mangaDir, chapters)
  }

  // ---------------------------------------------------------------------------
  // Unmatched directories
  // ---------------------------------------------------------------------------

  function ChapterNames(chapters: seq<ChapterRecord>): set<string> {
    set i | 0 <= i < |chapters| :: chapters[i].name
  }

  function DirNames(naming: Naming, chapters: seq<ChapterRecord>): set<string> {
    set i | 0 <= i < |chapters| :: ChapterDirName(naming, chapters[i])
  }

  function CbzNames(naming: Naming, chapters: seq<ChapterRecord>): set<string> {
    set i | 0 <= i < |chapters| :: ChapterDirName(naming, chapters[i]) + CBZ_EXTENSION
  }

  /**
   * The `findUnmatchedChapterDirs` filter: entries without a name and
   * temporary directories are kept; a chapter's directory or archive is
   * dropped; anything else is kept unless it, or its text after the first
   * '_', is a chapter's name.
   */
  predicate KeepUnmatched(naming: Naming, chapters: seq<ChapterRecord>, fileName: Option<string>) {
    match fileName
    case None => true
    case Some(n) =>
      if EndsWith(n, TMP_DIR_SUFFIX) then true
      else if n in DirNames(naming, chapters) then false
      else if n in CbzNames(naming, chapters) then false
      else n !in ChapterNames(chapters) && SubstringAfter(n, "_") !in ChapterNames(chapters)
  }

  /** A download in progress is never taken for an unmatched directory. */
  lemma TempDirIsKept(naming: Naming, chapters: seq<ChapterRecord>, k: nat)
    requires k < |chapters|
    ensures KeepUnmatched(naming, chapters, Some(ChapterDirName(naming, chapters[k]) + TMP_DIR_SUFFIX))
  {
    var n := ChapterDirName(naming, chapters[k]) + TMP_DIR_SUFFIX;
    assert n[|n| - 4..] == TMP_DIR_SUFFIX;
  }

  /** A chapter's directory and its archive are matched, unless the name itself ends in "_tmp". */
  lemma ChapterDirIsMatched(naming: Naming, chapters: seq<ChapterRecord>, k: nat)
    requires k < |chapters|
    ensures !EndsWith(ChapterDirName(naming, chapters[k]), TMP_DIR_SUFFIX)
            ==> !KeepUnmatched(naming, chapters, Some(ChapterDirName(naming, chapters[k])))
    ensures !KeepUnmatched(naming, chapters, Some(ChapterDirName(naming, chapters[k]) + CBZ_EXTENSION))
  {
    var n := ChapterDirName(naming, chapters[k]);
    assert n in DirNames(naming, chapters);
    var z := n + CBZ_EXTENSION;
    assert z[|z| - 4..] == CBZ_EXTENSION;
    assert z in CbzNames(naming, chapters);
  }

  /** A name made of a scanlator without '_', a '_' and a chapter's name is matched to that chapter. */
  lemma ScanlatorPrefixedNameIsMatched(naming: Naming, chapters: seq<ChapterRecord>, k: nat, scanlator: string)
    requires k < |chapters| && '_' !in scanlator
    requires !EndsWith(scanlator + "_" + chapters[k].name, TMP_DIR_SUFFIX)
    ensures !KeepUnmatched(naming, chapters, Some(scanlator + "_" + chapters[k].name))
  {
    var n := scanlator + "_" + chapters[k].name;
    assert n[|scanlator|] == '_';
    IndexOfChar(n, '_');
    var i := IndexOf(n, ['_']).value;
    assert forall j :: 0 <= j < |scanlator| ==> n[j] == scanlator[j];
    assert i == |scanlator|;
    assert SubstringAfter(n, "_") == chapters[k].name;
    assert chapters[k].name in ChapterNames(chapters);
  }

  /** The entries of a listing that the filter keeps, in listing order. */
  function KeptEntries(naming: Naming, chapters: seq<ChapterRecord>, entries: seq<Node>): (r: seq<Node>)
    ensures |r| <= |entries|
    ensures forall f :: f in r <==> f in entries && KeepUnmatched(naming, chapters, f.name)
  {
    if |entries| == 0 then []
    else
      var rest := KeptEntries(naming, chapters, entries[1..]);
      assert forall f :: f in entries <==> f == entries[0] || f in entries[1..];
      if KeepUnmatched(naming, chapters, entries[0].name) then [entries[0]] + rest else rest
  }

  /** `findUnmatchedChapterDirs(chapters, manga, source)`. */
  function FindUnmatchedChapterDirs(naming: Naming, root: Node, chapters: seq<ChapterRecord>, sourceDirName: string,
                                    originalTitle: string): (r: seq<Node>)
    ensures FindMangaDir(naming, root, sourceDirName, originalTitle).None? ==> r == []
    ensures FindMangaDir(naming, root, sourceDirName, originalTitle).Some? ==>
      forall f :: f in r <==> f in FindMangaDir(naming, root, sourceDirName, originalTitle).value.children
                              && KeepUnmatched(naming, chapters, f.name)
  {
    match FindMangaDir(naming, root, sourceDirName, originalTitle)
    case None => []
    case Some(mangaDir) => KeptEntries(naming, chapters, mangaDir.children)
  }

  // ---------------------------------------------------------------------------
  // Legacy rename
  // ---------------------------------------------------------------------------

  /** Why the rename pass stops with an exception. */
  datatype RenameError = EmptyFirstSegment

  /**
   * The rename rule as written: a name with more than two '_'-separated
   * segments whose first segment starts with a digit loses that segment, and
   * then a leading "null_". Asking for the first character of an empty first
   * segment throws.
   */
  function RenameAsWritten(name: string): Result<Option<string>, RenameError> {
    var parts := Split(name, '_');
    if |parts| > 2 then
      if |parts[0]| == 0 then Err(EmptyFirstSegment)
      else if IsDigit(parts[0][0]) then Ok(Some(RemovePrefix(Join(parts[1..], '_'), "null_")))
      else Ok(None)
    else Ok(None)
  }

  /** A directory named like the blank-scanlator form of a chapter whose name holds a '_' stops the pass. */
  lemma RenameAsWrittenThrows()
    ensures RenameAsWritten("_a_b") == Err(EmptyFirstSegment)
  {
    assert Split("_a_b", '_') == ["", "a", "b"] by {
      SplitAtFirst("_a_b", '_', 0);
      assert "_a_b"[1..] == "a_b";
      SplitAtFirst("a_b", '_', 1);
      assert "a_b"[2..] == "b" && "a_b"[..1] == "a";
      assert "b"[1..] == "";
      assert Split("", '_') == [""];
      assert Split("b", '_') == [['b'] + Split("", '_')[0]] + Split("", '_')[1..];
      var e := Split("", '_');
      assert e[0] == "" && e[1..] == [];
      assert ['b'] + e[0] == "b";
      assert [['b'] + e[0]] + e[1..] == ["b"];
      assert Split("a_b", '_') == ["a"] + ["b"];
      assert "_a_b"[..0] == "";
      assert Split("_a_b", '_') == [""] + ["a", "b"];
    }
  }

  /**
   * The rename rule: a name with at least two '_' whose first character is a
   * digit becomes its text after the first '_', without a leading "null_";
   * every other name, one starting with '_' included, is left alone.
   */
  function RenamedName(name: string): (r: Option<string>)
    ensures r.Some? <==> Count(name, '_') >= 2 && |name| > 0 && IsDigit(name[0])
    ensures r.Some? ==> r.value == RemovePrefix(SubstringAfter(name, "_"), "null_")
  {
    var parts := Split(name, '_');
    SplitLength(name, '_');
    if |parts| > 2 && |parts[0]| > 0 && IsDigit(parts[0][0]) then
      assert '_' in name by {
        if '_' !in name { CountAbsent(name, '_'); }
      }
      SplitTailJoin(name, '_');
      FirstSegmentStart(name, '_');
      Some(RemovePrefix(Join(parts[1..], '_'), "null_"))
    else
      FirstSegmentStart(name, '_');
      None
  }

  lemma {:induction false} CountAbsent(s: string, c: char)
    requires c !in s
    ensures Count(s, c) == 0
  {
    if |s| > 0 {
      CountAbsent(s[1..], c);
    }
  }

  /** The first segment of a split is non-empty exactly when the text starts with a character other than the delimiter. */
  lemma {:induction false} FirstSegmentStart(s: string, c: char)
    ensures |Split(s, c)[0]| > 0 <==> |s| > 0 && s[0] != c
    ensures |Split(s, c)[0]| > 0 ==> Split(s, c)[0][0] == s[0]
  {
  }

  /** Wherever the rule as written does not throw, it agrees with the corrected rule. */
  lemma RenameAgreesWhereDefined(name: string)
    ensures RenameAsWritten(name).Ok? ==> RenameAsWritten(name).value == RenamedName(name)
    ensures RenameAsWritten(name).Err? ==> RenamedName(name).None?
  {
  }

  /** A legacy "<id>_<rest>" name with a '_' in its rest becomes the rest, without a leading "null_". */
  lemma LegacyNameRenamed(id: nat, rest: string)
    requires '_' in rest
    ensures RenamedName(NatToString(id) + "_" + rest) == Some(RemovePrefix(rest, "null_"))
  {
    var digits := NatToString(id);
    var n := digits + "_" + rest;
    assert SubstringAfter(n, "_") == rest by {
      AfterDigitPrefix(digits, rest);
    }
    assert Count(n, '_') >= 2 by {
      var k :| 0 <= k < |rest| && rest[k] == '_';
      assert n[|digits|] == '_';
      assert n[|digits| + 1 + k] == '_';
      CountAtLeastTwo(n, |digits|, |digits| + 1 + k, '_');
    }
    assert IsDigit(n[0]);
  }

  /** In "<digits>_<rest>" the first '_' is the one after the digits. */
  lemma AfterDigitPrefix(digits: string, rest: string)
    requires AllDigits(digits)
    ensures SubstringAfter(digits + "_" + rest, "_") == rest
  {
    var n := digits + "_" + rest;
    assert n[|digits|] == '_';
    assert forall j :: 0 <= j < |digits| ==> n[j] == digits[j];
    IndexOfChar(n, '_');
    var i := IndexOf(n, ['_']).value;
    assert i == |digits|;
    assert n[i + 1..] == rest;
  }

  lemma {:induction false} CountAtLeastTwo(s: string, i: nat, j: nat, c: char)
    requires i < j < |s| && s[i] == c && s[j] == c
    ensures Count(s, c) >= 2
  {
    if i > 0 {
      CountAtLeastTwo(s[1..], i - 1, j - 1, c);
    } else {
      CountAtLeastOne(s[1..], j - 1, c);
    }
  }

  lemma {:induction false} CountAtLeastOne(s: string, j: nat, c: char)
    requires j < |s| && s[j] == c
    ensures Count(s, c) >= 1
  {
    if j > 0 {
      CountAtLeastOne(s[1..], j - 1, c);
    }
  }

  /** One entry after the rule: renamed when the rule applies to its name. */
  function RenamedEntry(entry: Node): (r: Node)
    requires entry.name.Some?
    ensures r.children == entry.children
    ensures r.name == Some(RenamedName(entry.name.value).GetOr(entry.name.value))
    ensures RenamedName(entry.name.value).None? ==> r == entry
  {
    match RenamedName(entry.name.value)
    case Some(newName) => entry.(name := Some(newName))
    case None => entry
  }

  /** How many entries of the listing come before the first one without a name. */
  function NamedPrefix(entries: seq<Node>): (n: nat)
    ensures n <= |entries|
    ensures forall j :: 0 <= j < n ==> entries[j].name.Some?
    ensures n < |entries| ==> entries[n].name.None?
  {
    if |entries| == 0 || entries[0].name.None? then 0
    else
      var n := 1 + NamedPrefix(entries[1..]);
      assert forall j :: 1 <= j < |entries| ==> entries[j] == entries[1..][j - 1];
      n
  }

  /**
   * The listing after the rename pass: each entry before the first one without a
   * name is renamed by the rule; from there on the pass has stopped.
   */
  function RenamedEntries(entries: seq<Node>): (r: seq<Node>)
    ensures |r| == |entries|
    ensures forall i :: 0 <= i < |r| ==> r[i].children == entries[i].children
    ensures forall i :: 0 <= i < NamedPrefix(entries) ==> r[i] == RenamedEntry(entries[i])
    ensures forall i :: NamedPrefix(entries) <= i < |r| ==> r[i] == entries[i]
  {
    var n := NamedPrefix(entries);
    seq(|entries|, i requires 0 <= i < |entries| => if i < n then RenamedEntry(entries[i]) else entries[i])
  }

  /** Every entry keeps its name or gets the rule's new name; nothing after an unnamed entry changes. */
  lemma RenamedEntriesNames(entries: seq<Node>, i: nat)
    requires i < |entries|
    ensures var r := RenamedEntries(entries);
      r[i].name == entries[i].name
      || (entries[i].name.Some? && RenamedName(entries[i].name.value).Some?
          && r[i].name == RenamedName(entries[i].name.value))
    ensures (exists j :: 0 <= j <= i && entries[j].name.None?) ==> RenamedEntries(entries)[i] == entries[i]
    ensures (forall j :: 0 <= j <= i ==> entries[j].name.Some?) ==>
      RenamedEntries(entries)[i].name == Some(RenamedName(entries[i].name.value).GetOr(entries[i].name.value))
  {
    var n := NamedPrefix(entries);
    if i < n {
      assert RenamedEntries(entries)[i] == RenamedEntry(entries[i]);
      assert !exists j :: 0 <= j <= i && entries[j].name.None?;
    } else {
      assert RenamedEntries(entries)[i] == entries[i];
      assert entries[n].name.None?;
    }
  }

  /** A listing whose names follow the current scheme is left alone. */
  lemma RenameKeepsUnprefixedNames(entries: seq<Node>)
    requires forall i :: 0 <= i < |entries| ==> entries[i].name.Some? && RenamedName(entries[i].name.value).None?
    ensures RenamedEntries(entries) == entries
  {
    var r := RenamedEntries(entries);
    assert NamedPrefix(entries) == |entries|;
    forall i | 0 <= i < |entries| ensures r[i] == entries[i] {
      assert r[i] == RenamedEntry(entries[i]);
    }
  }

  /** The rename pass over one manga directory's listing: entry by entry, stopping at the first without a name. */
  method RenameInDir(entries: seq<Node>) returns (renamed: seq<Node>)
    ensures renamed == RenamedEntries(entries)
  {
    ghost var spec, n := RenamedEntries(entries), NamedPrefix(entries);
    renamed := [];
    var i := 0;
    while i < |entries|
      invariant 0 <= i <= |entries| && i <= n
      invariant renamed == spec[..i]
    {
      var entry := entries[i];
      NamedBeforePrefix(entries, i);
      if entry.name.None? {
        RenameStops(entries, i);
        renamed := renamed + entries[i..];
        return;
      }
      RenameStep(entries, i);
      renamed := renamed + [RenamedEntry(entry)];
      i := i + 1;
    }
    RenameEnds(entries);
  }

  /** Up to the end of the named prefix, an entry is named exactly when it lies inside the prefix. */
  lemma NamedBeforePrefix(entries: seq<Node>, i: nat)
    requires i < |entries| && i <= NamedPrefix(entries)
    ensures entries[i].name.Some? <==> i < NamedPrefix(entries)
    ensures entries[i].name.None? <==> i == NamedPrefix(entries)
  {
  }

  /** Inside the named prefix, the pass renames the entry and goes on. */
  lemma RenameStep(entries: seq<Node>, i: nat)
    requires i < NamedPrefix(entries)
    ensures RenamedEntries(entries)[..i + 1] == RenamedEntries(entries)[..i] + [RenamedEntry(entries[i])]
  {
    var r := RenamedEntries(entries);
    assert r[i] == RenamedEntry(entries[i]);
    PrefixSnoc(r, i);
  }

  /** At the end of the named prefix the pass stops and the rest of the listing stays. */
  lemma RenameStops(entries: seq<Node>, i: nat)
    requires i == NamedPrefix(entries)
    ensures RenamedEntries(entries) == RenamedEntries(entries)[..i] + entries[i..]
  {
    SpliceSuffix(RenamedEntries(entries), entries, i);
  }

  /** A listing named throughout is renamed throughout. */
  lemma RenameEnds(entries: seq<Node>)
    ensures RenamedEntries(entries)[..|entries|] == RenamedEntries(entries)
  {
  }

  // ---------------------------------------------------------------------------
  // The provider and its root directory
  // ---------------------------------------------------------------------------

  /** A favorite manga: its title and, when its source is installed, that source's directory name. */
  datatype Favorite = Favorite(originalTitle: string, sourceDirName: Option<string>)

  /**
   * `createDirectory(name)`: the entry answering to `name` is reused, as on a
   * file system that ignores case; otherwise a new empty directory is added.
   */
  function WithDirectory(naming: Naming, dir: Node, name: string): (r: Node)
    ensures r.name == dir.name
    ensures |dir.children| <= |r.children| && r.children[..|dir.children|] == dir.children
    ensures FindFileIndex(naming, r, name, true).Some?
    ensures FindFileIndex(naming, dir, name, true).Some? ==> r == dir
    ensures FindFileIndex(naming, dir, name, true).None? ==> r.children == dir.children + [Node(Some(name), [])]
  {
    if FindFileIndex(naming, dir, name, true).Some? then dir
    else
      var r := dir.(children := dir.children + [Node(Some(name), [])]);
      assert NameMatches(naming, r.children[|dir.children|], name, true);
      assert forall j :: 0 <= j < |dir.children| ==> r.children[j] == dir.children[j];
      r
  }

  /** The manga directory at `mi` of the source directory at `si`. */
  predicate IsMangaPath(root: Node, si: nat, mi: nat) {
    si < |root.children| && mi < |root.children[si].children|
  }

  /** Replacing an entry by one with the same name leaves every lookup where it was. */
  lemma FindAfterReplace(naming: Naming, dir: Node, i: nat, entry: Node, name: string, ignoreCase: bool)
    requires i < |dir.children| && entry.name == dir.children[i].name
    ensures FindFileIndex(naming, dir.(children := dir.children[i := entry]), name, ignoreCase)
            == FindFileIndex(naming, dir, name, ignoreCase)
  {
    var d2 := dir.(children := dir.children[i := entry]);
    assert forall j :: 0 <= j < |dir.children| ==>
      (NameMatches(naming, d2.children[j], name, ignoreCase) <==> NameMatches(naming, dir.children[j], name, ignoreCase));
    var a, b := FindFileIndex(naming, d2, name, ignoreCase), FindFileIndex(naming, dir, name, ignoreCase);
    if a.Some? && b.Some? {
      assert !(a.value < b.value) && !(b.value < a.value);
    }
  }

  /** `getMangaDir(manga, source)`: root/source/manga, each level created when missing. */
  function WithMangaDir(naming: Naming, root: Node, sourceDirName: string, originalTitle: string): (r: Node)
    ensures r.name == root.name
    ensures FindMangaDir(naming, r, sourceDirName, originalTitle).Some?
    ensures FindMangaDir(naming, root, sourceDirName, originalTitle).Some? ==> r == root
    ensures |root.children| <= |r.children| <= |root.children| + 1
    ensures |r.children| > |root.children| ==>
      r.children[|root.children|] == Node(Some(sourceDirName), [Node(Some(MangaDirName(naming, originalTitle)), [])])
    ensures forall i :: 0 <= i < |root.children| ==>
      || r.children[i] == root.children[i]
      || (&& Some(i) == FindFileIndex(naming, root, sourceDirName, true)
          && r.children[i] == root.children[i].(children := root.children[i].children
                                                          + [Node(Some(MangaDirName(naming, originalTitle)), [])]))
  {
    var r1 := WithDirectory(naming, root, sourceDirName);
    var si := FindFileIndex(naming, r1, sourceDirName, true).value;
    var sourceDir := WithDirectory(naming, r1.children[si], MangaDirName(naming, originalTitle));
    var r := r1.(children := r1.children[si := sourceDir]);
    FindAfterReplace(naming, r1, si, sourceDir, sourceDirName, true);
    assert FindFile(naming, r, sourceDirName, true) == Some(sourceDir);
    assert FindMangaDir(naming, root, sourceDirName, originalTitle).Some? ==> r == root by {
      if FindMangaDir(naming, root, sourceDirName, originalTitle).Some? {
        assert r1 == root && sourceDir == root.children[si];
        assert r1.children[si := sourceDir] == root.children;
      }
    }
    r
  }

  /** Making a manga directory that exists changes nothing. */
  lemma WithMangaDirIdempotent(naming: Naming, root: Node, sourceDirName: string, originalTitle: string)
    ensures var r := WithMangaDir(naming, root, sourceDirName, originalTitle);
      WithMangaDir(naming, r, sourceDirName, originalTitle) == r
  {
    var r := WithMangaDir(naming, root, sourceDirName, originalTitle);
    assert FindMangaDir(naming, r, sourceDirName, originalTitle).Some?;
  }

  /** The rename pass's effect on the manga directory of one favorite. */
  function RenameOne(naming: Naming, root: Node, favorite: Favorite): (r: Node)
    ensures r.name == root.name && |r.children| == |root.children|
  {
    match favorite.sourceDirName
    case None => root
    case Some(sourceDirName) =>
      match FindFileIndex(naming, root, sourceDirName, true)
      case None => root
      case Some(si) =>
        var sourceDir := root.children[si];
        match FindFileIndex(naming, sourceDir, MangaDirName(naming, favorite.originalTitle), true)
        case None => root
        case Some(mi) =>
          var mangaDir := sourceDir.children[mi];
          var renamedDir := mangaDir.(children := RenamedEntries(mangaDir.children));
          root.(children := root.children[si := sourceDir.(children := sourceDir.children[mi := renamedDir])])
  }

  /** The rename pass over the favorites, in order. */
  function RenameAll(naming: Naming, root: Node, favorites: seq<Favorite>): (r: Node)
    ensures r.name == root.name && |r.children| == |root.children|
  {
    if |favorites| == 0 then root
    else RenameOne(naming, RenameAll(naming, root, favorites[..|favorites| - 1]), favorites[|favorites| - 1])
  }

  /** The rename pass leaves every source and manga directory name as it was, so each manga is found again. */
  lemma RenameOneKeepsDirectories(naming: Naming, root: Node, favorite: Favorite)
    ensures var r := RenameOne(naming, root, favorite);
      forall si :: 0 <= si < |root.children| ==>
        && r.children[si].name == root.children[si].name
        && |r.children[si].children| == |root.children[si].children|
        && forall mi :: 0 <= mi < |root.children[si].children| ==>
             r.children[si].children[mi].name == root.children[si].children[mi].name
  {
  }

  class DownloadProvider {
    const naming: Naming
    /** The root of the downloads, replaced when the downloads-directory preference changes. */
    var downloadsDir: Node

    constructor (naming: Naming, downloadsDir: Node)
      ensures this.naming == naming && this.downloadsDir == downloadsDir
    {
      this.naming := naming;
      this.downloadsDir := downloadsDir;
    }

    /** A new value of the downloads-directory preference. */
    method SetDownloadsDir(dir: Node)
      modifies this`downloadsDir
      ensures downloadsDir == dir
    {
      downloadsDir := dir;
    }

    /** `getMangaDir(manga, source)`: creates root/source/manga as needed; the manga directory is then found. */
    method GetMangaDir(sourceDirName: string, originalTitle: string) returns (mangaDir: Node)
      modifies this`downloadsDir
      ensures downloadsDir == WithMangaDir(naming, old(downloadsDir), sourceDirName, originalTitle)
      ensures FindMangaDir(naming, downloadsDir, sourceDirName, originalTitle) == Some(mangaDir)
    {
      downloadsDir := WithMangaDir(naming, downloadsDir, sourceDirName, originalTitle);
      mangaDir := FindMangaDir(naming, downloadsDir, sourceDirName, originalTitle).value;
    }

    /**
     * `renameChapters()`: for each favorite whose source is installed and whose
     * manga directory exists, the listing is renamed entry by entry.
     */
    method RenameChapters(favorites: seq<Favorite>)
      modifies this`downloadsDir
      ensures downloadsDir == RenameAll(naming, old(downloadsDir), favorites)
    {
      var k := 0;
      while k < |favorites|
        invariant 0 <= k <= |favorites|
        invariant downloadsDir == RenameAll(naming, old(downloadsDir), favorites[..k])
      {
        assert favorites[..k + 1][..k] == favorites[..k];
        var favorite := favorites[k];
        if favorite.sourceDirName.Some? {
          var si := FindFileIndex(naming, downloadsDir, favorite.sourceDirName.value, true);
          if si.Some? {
            var sourceDir := downloadsDir.children[si.value];
            var mi := FindFileIndex(naming, sourceDir, MangaDirName(naming, favorite.originalTitle), true);
            if mi.Some? {
              var mangaDir := sourceDir.children[mi.value];
              var renamed := RenameInDir(mangaDir.children);
              sourceDir := sourceDir.(children := sourceDir.children[mi.value := mangaDir.(children := renamed)]);
              downloadsDir := downloadsDir.(children := downloadsDir.children[si.value := sourceDir]);
            }
          }
        }
        k := k + 1;
      }
      assert favorites[..k] == favorites;
    }
  }
}
