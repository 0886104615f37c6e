/** The archive folder tree both routers share (archive/YYYY-MM/manager_<id>/...):
    the files it holds, the two glob searches over it, and the move of a sent
    file into a `sent/` sub-folder (payroll.py:159-169, 210-223;
    payslips.py:216-238). */
module Archive {
  import opened Wrappers
  import opened Text
  import opened Aggregation

  /** A path below the working directory, one name per segment. */
  type Path = seq<string>

  /** What a file holds: the rows of an aggregated CSV, or a payslip PDF
      with the figures drawn on it and the passwords it is encrypted with. */
  datatype Document =
    | CsvFile(rows: seq<seq<string>>)
    | PdfFile(slip: Figures, ownerPassword: string, userPassword: string)
    | OtherFile

  datatype FileEntry = FileEntry(doc: Document, mtime: int)

  /** The regular files of the tree; a directory exists when a file lies below it. */
  type Files = map<Path, FileEntry>

  predicate IsDirectory(files: Files, p: Path)
  {
    exists q :: q in files && |p| < |q| && q[..|p|] == p
  }

  /** `os.path.exists`. */
  predicate Exists(files: Files, p: Path)
  {
    p in files || IsDirectory(files, p)
  }

  /** `os.makedirs(dir, exist_ok=True)` raises when a regular file sits at the
      folder or at one of its ancestors. */
  predicate Blocked(files: Files, dir: Path)
  {
    exists k :: 1 <= k <= |dir| && dir[..k] in files
  }

  /** `open(path, "w")` in a folder just made: it fails on a directory. */
  predicate CanWrite(files: Files, path: Path)
  {
    |path| >= 1 && !Blocked(files, path[..|path| - 1]) && !IsDirectory(files, path)
  }

  /** `shutil.move` into an existing directory keeps the base name. */
  function MoveTarget(files: Files, src: Path, dst: Path): Path
    requires |src| >= 1
  {
    if IsDirectory(files, dst) then dst + [src[|src| - 1]] else dst
  }

  /** `shutil.move` raises when the source is missing, or when the name it
      would take inside a destination directory is already taken. */
  predicate CanMove(files: Files, src: Path, dst: Path)
    requires |src| >= 1
  {
    src in files && !(IsDirectory(files, dst) && Exists(files, MoveTarget(files, src, dst)))
  }

  /** A rename: the target, if it was a file, is replaced. */
  function Renamed(files: Files, src: Path, target: Path): (r: Files)
    requires src in files
    ensures target in r && r[target] == files[src]
    ensures src != target ==> src !in r
    ensures forall p :: p != src && p != target ==> (p in r <==> p in files)
    ensures forall p :: p in r && p != target ==> r[p] == files[p]
  {
    if src == target then files else (files - {src})[target := files[src]]
  }

  class FileSystem {
    var files: Files

    constructor (initial: Files)
      ensures files == initial
    {
      files := initial;
    }

    /** Create the folder, then open the file for writing and write `doc`:
        whatever the path held is replaced. */
    method WriteFile(path: Path, doc: Document, now: int) returns (ok: bool)
      modifies this
      ensures ok == CanWrite(old(files), path)
      ensures files == if ok then old(files)[path := FileEntry(doc, now)] else old(files)
    {
      ok := CanWrite(files, path);
      if ok {
        files := files[path := FileEntry(doc, now)];
      }
    }

    /** `shutil.move(src, dst)` within one file system. */
    method Move(src: Path, dst: Path) returns (ok: bool)
      requires |src| >= 1
      modifies this
      ensures ok == CanMove(old(files), src, dst)
      ensures files == if ok then Renamed(old(files), src, MoveTarget(old(files), src, dst)) else old(files)
    {
      ok := CanMove(files, src, dst);
      if ok {
        files := Renamed(files, src, MoveTarget(files, src, dst));
      }
    }
  }

  // ---------------------------------------------------------------------
  // The two glob patterns
  // ---------------------------------------------------------------------

  /** A `*` segment: any name that does not start with a dot. */
  predicate MatchesStar(name: string)
  {
    |name| > 0 && name[0] != '.'
  }

  const ArchiveRoot := "archive"
  const SentFolder := "sent"
  const PdfFolder := "pdfs"

  function ManagerFolder(managerId: int): string
  {
    "manager_" + IntToString(managerId)
  }

  /** `aggregated_*.csv`. */
  predicate MatchesCsvName(name: string)
  {
    |name| >= 15 && HasPrefix(name, "aggregated_") && HasSuffix(name, ".csv")
  }

  /** archive/ * /manager_<id>/aggregated_*.csv */
  predicate IsCsvCandidate(p: Path, managerId: int)
  {
    |p| == 4 && p[0] == ArchiveRoot && MatchesStar(p[1]) && p[2] == ManagerFolder(managerId) && MatchesCsvName(p[3])
  }

  /** archive/ * /manager_<id>/pdfs/ *.pdf */
  predicate IsPdfCandidate(p: Path, managerId: int)
  {
    |p| == 5 && p[0] == ArchiveRoot && MatchesStar(p[1]) && p[2] == ManagerFolder(managerId) && p[3] == PdfFolder &&
    MatchesStar(p[4]) && HasSuffix(p[4], ".pdf")
  }

  function CsvCandidates(files: Files, managerId: int): set<Path>
  {
    set p | p in files && IsCsvCandidate(p, managerId)
  }

  function PdfCandidates(files: Files, managerId: int): set<Path>
  {
    set p | p in files && IsPdfCandidate(p, managerId)
  }

  /** One manager's folder is never searched for another's files. */
  lemma ManagerFoldersDisjoint(p: Path, m1: int, m2: int)
    requires IsCsvCandidate(p, m1) || IsPdfCandidate(p, m1)
    requires IsCsvCandidate(p, m2) || IsPdfCandidate(p, m2)
    ensures m1 == m2
  {
    assert "manager_" + IntToString(m1) == "manager_" + IntToString(m2);
    assert IntToString(m1) == ("manager_" + IntToString(m1))[8..];
    assert IntToString(m2) == ("manager_" + IntToString(m2))[8..];
    IntToStringInjective(m1, m2);
  }

  // ---------------------------------------------------------------------
  // _find_latest_csv_for_manager and _find_pdfs_for_manager
  // ---------------------------------------------------------------------

  /** The most recently modified CSV of the manager, or `None` when there is
      none. Among files with the same mtime the directory listing order
      decides, which the model leaves open. */
  method FindLatestCsv(fs: FileSystem, managerId: int) returns (r: Option<Path>)
    ensures r.None? <==> CsvCandidates(fs.files, managerId) == {}
    ensures r.Some? ==> r.value in CsvCandidates(fs.files, managerId)
    ensures r.Some? ==> forall q :: q in CsvCandidates(fs.files, managerId) ==> fs.files[q].mtime <= fs.files[r.value].mtime
  {
    var candidates := CsvCandidates(fs.files, managerId);
    if candidates == {} {
      return None;
    }
    var best :| best in candidates;
    var rest := candidates - {best};
    while rest != {}
      invariant rest <= candidates && best in candidates && best !in rest
      invariant forall q :: q in candidates && q !in rest ==> fs.files[q].mtime <= fs.files[best].mtime
      decreases |rest|
    {
      var q :| q in rest;
      if fs.files[q].mtime > fs.files[best].mtime {
        best := q;
      }
      rest := rest - {q};
    }
    r := Some(best);
  }

  /** The text `sorted()` compares: the path joined with '/'. */
  function PathString(p: Path): string
  {
    JoinWith(p, '/')
  }

  predicate PathLe(a: Path, b: Path)
  {
    StrLe(PathString(a), PathString(b))
  }

  predicate SortedPaths(s: seq<Path>)
  {
    forall i, j :: 0 <= i < j < |s| ==> PathLe(s[i], s[j])
  }

  function InsertPath(p: Path, s: seq<Path>): (r: seq<Path>)
    requires SortedPaths(s)
    ensures SortedPaths(r)
    ensures multiset(r) == multiset(s) + multiset{p}
    ensures |r| == |s| + 1 && (r[0] == p || (|s| > 0 && r[0] == s[0]))
  {
    if s == [] || PathLe(p, s[0]) then
      ConsSorted(p, s);
      [p] + s
    else
      var t := InsertPath(p, s[1..]);
      StrLeTotal(PathString(p), PathString(s[0]));
      ConsSorted(s[0], t);
      assert s == [s[0]] + s[1..];
      [s[0]] + t
  }

  /** A path no greater than the head of a sorted list can go in front of it. */
  lemma ConsSorted(x: Path, t: seq<Path>)
    requires SortedPaths(t) && (t == [] || PathLe(x, t[0]))
    ensures SortedPaths([x] + t)
  {
    var u := [x] + t;
    forall i, j | 0 <= i < j < |u|
      ensures PathLe(u[i], u[j])
    {
      if i == 0 && j > 1 {
        StrLeTransitive(PathString(x), PathString(t[0]), PathString(t[j - 1]));
      }
    }
  }

  /** `sorted(paths)`. */
  function SortPaths(s: seq<Path>): (r: seq<Path>)
    ensures SortedPaths(r)
    ensures multiset(r) == multiset(s)
  {
    if s == [] then []
    else
      assert s == [s[0]] + s[1..];
      InsertPath(s[0], SortPaths(s[1..]))
  }

  /** The paths `glob` yields, in whatever order the directory listing gives. */
  method Listing(found: set<Path>) returns (s: seq<Path>)
    ensures forall p :: p in s <==> p in found
    ensures forall i, j :: 0 <= i < j < |s| ==> s[i] != s[j]
  {
    s := [];
    var rest := found;
    while rest != {}
      invariant rest <= found
      invariant forall p :: p in s <==> p in found && p !in rest
      invariant forall i, j :: 0 <= i < j < |s| ==> s[i] != s[j]
      decreases |rest|
    {
      var p :| p in rest;
      s := s + [p];
      rest := rest - {p};
    }
  }

  /** Every PDF of the manager, across all month folders and outside `sent/`,
      each once, in the order of its path text. */
  method FindPdfs(fs: FileSystem, managerId: int) returns (r: seq<Path>)
    ensures forall p :: p in r <==> p in PdfCandidates(fs.files, managerId)
    ensures forall i, j :: 0 <= i < j < |r| ==> r[i] != r[j]
    ensures SortedPaths(r)
  {
    var listing := Listing(PdfCandidates(fs.files, managerId));
    r := SortPaths(listing);
    PermutationKeepsDistinct(listing, r);
  }

  /** Reordering a list without repeats yields the same paths, still without repeats. */
  lemma PermutationKeepsDistinct(s: seq<Path>, r: seq<Path>)
    requires forall i, j :: 0 <= i < j < |s| ==> s[i] != s[j]
    requires multiset(r) == multiset(s)
    ensures forall p :: p in r <==> p in s
    ensures forall i, j :: 0 <= i < j < |r| ==> r[i] != r[j]
  {
    forall p
      ensures p in r <==> p in s
    {
      assert p in r <==> p in multiset(r);
      assert p in s <==> p in multiset(s);
    }
    forall i, j | 0 <= i < j < |r|
      ensures r[i] != r[j]
    {
      if r[i] == r[j] {
        var x := r[i];
        assert r == r[..i] + [x] + r[i + 1..j] + [x] + r[j + 1..];
        assert multiset(r)[x] >= 2;
        DistinctCount(s, x);
      }
    }
  }

  lemma {:induction false} DistinctCount(s: seq<Path>, x: Path)
    requires forall i, j :: 0 <= i < j < |s| ==> s[i] != s[j]
    ensures multiset(s)[x] <= 1
  {
    if s != [] {
      var n := |s| - 1;
      assert s == s[..n] + [s[n]];
      DistinctCount(s[..n], x);
      if s[n] == x {
        assert x !in s[..n];
      }
    }
  }

  // ---------------------------------------------------------------------
  // _archive_sent_file
  // ---------------------------------------------------------------------

  datatype FsError = MakedirsFailed(dir: Path) | MoveFailed(src: Path, dest: Path)

  function SentDir(src: Path): Path
    requires |src| >= 1
  {
    src[..|src| - 1] + [SentFolder]
  }

  /** `<dir>/sent/<base>`, or `<dir>/sent/<name>_<now><ext>` when that name
      exists; the suffixed name is not checked in turn. */
  function SentDestination(files: Files, src: Path, now: int): Path
    requires |src| >= 1
  {
    var base := src[|src| - 1];
    var dest := SentDir(src) + [base];
    if Exists(files, dest) then
      var (name, ext) := SplitExt(base);
      SentDir(src) + [name + "_" + IntToString(now) + ext]
    else dest
  }

  /** The outcome and the new tree of `_archive_sent_file(src)` at time `now`. */
  function ArchiveSent(files: Files, src: Path, now: int): (Result<Path, FsError>, Files)
    requires |src| >= 1
  {
    if Blocked(files, SentDir(src)) then (Err(MakedirsFailed(SentDir(src))), files)
    else
      var dest := SentDestination(files, src, now);
      if CanMove(files, src, dest) then (Ok(dest), Renamed(files, src, MoveTarget(files, src, dest)))
      else (Err(MoveFailed(src, dest)), files)
  }

  method ArchiveSentFile(fs: FileSystem, src: Path, now: int) returns (r: Result<Path, FsError>)
    requires |src| >= 1
    modifies fs
    ensures (r, fs.files) == ArchiveSent(old(fs.files), src, now)
  {
    var sentDir := src[..|src| - 1] + [SentFolder];
    if Blocked(fs.files, sentDir) {
      return Err(MakedirsFailed(sentDir));
    }
    var base := src[|src| - 1];
    var dest := sentDir + [base];
    if Exists(fs.files, dest) {
      var (name, ext) := SplitExt(base);
      dest := sentDir + [name + "_" + IntToString(now) + ext];
    }
    var ok := fs.Move(src, dest);
    if ok {
      r := Ok(dest);
    } else {
      r := Err(MoveFailed(src, dest));
    }
  }

  /** A successful archive leaves the source path empty and puts its entry,
      unchanged, below `<dir>/sent/`; every other file keeps its entry. It
      succeeds exactly when the file exists and the `sent` folder can be made. */
  lemma ArchiveSentMoves(files: Files, src: Path, now: int)
    requires |src| >= 1
    ensures var (r, after) := ArchiveSent(files, src, now);
      && (src !in files ==> r.Err?)
      && (r.Ok? <==> src in files && !Blocked(files, SentDir(src)) &&
                     var dest := SentDestination(files, src, now);
                     !(IsDirectory(files, dest) && Exists(files, dest + [src[|src| - 1]])))
      && (r.Ok? ==> r.value == SentDestination(files, src, now))
      && (r.Ok? ==>
            var target := MoveTarget(files, src, r.value);
            && |target| > |src| && target[..|src| - 1] == SentDir(src)[..|src| - 1] && target[|src| - 1] == SentFolder
            && src !in after && target in after && after[target] == files[src]
            && (forall p :: p != src && p != target ==> (p in after <==> p in files))
            && (forall p :: p in after && p != target ==> after[p] == files[p]))
      && (r.Err? ==> after == files)
  {
    var (r, after) := ArchiveSent(files, src, now);
    if r.Ok? {
      var dest := SentDestination(files, src, now);
      assert dest[..|src|] == SentDir(src);
    }
  }

  /** Once archived, the same source cannot be archived again: the second call fails. */
  lemma ArchiveTwiceFails(files: Files, src: Path, now: int, later: int)
    requires |src| >= 1
    requires ArchiveSent(files, src, now).0.Ok?
    ensures ArchiveSent(ArchiveSent(files, src, now).1, src, later).0.Err?
  {
    ArchiveSentMoves(files, src, now);
  }

  /** After a file found by either search is archived, the searches of every
      manager see the same files minus that one: the copy in `sent/` is never
      found again. */
  lemma ArchivedLeavesSearches(files: Files, src: Path, now: int, owner: int, managerId: int)
    requires IsCsvCandidate(src, owner) || IsPdfCandidate(src, owner)
    requires ArchiveSent(files, src, now).0.Ok?
    ensures CsvCandidates(ArchiveSent(files, src, now).1, managerId) == CsvCandidates(files, managerId) - {src}
    ensures PdfCandidates(ArchiveSent(files, src, now).1, managerId) == PdfCandidates(files, managerId) - {src}
  {
    ArchiveSentMoves(files, src, now);
    var dest := SentDestination(files, src, now);
    var target := MoveTarget(files, src, dest);
    assert target[|src| - 1] == SentFolder;
    assert !IsCsvCandidate(target, managerId) && !IsPdfCandidate(target, managerId);
    RenameOutsideSearches(files, src, target, managerId);
  }

  lemma RenameOutsideSearches(files: Files, src: Path, target: Path, managerId: int)
    requires src in files && src != target
    requires !IsCsvCandidate(target, managerId) && !IsPdfCandidate(target, managerId)
    ensures CsvCandidates(Renamed(files, src, target), managerId) == CsvCandidates(files, managerId) - {src}
    ensures PdfCandidates(Renamed(files, src, target), managerId) == PdfCandidates(files, managerId) - {src}
  {
  }

  /** On a name clash the file keeps its extension and gains the timestamp
      before it: aggregated_2024_05.csv becomes aggregated_2024_05_<now>.csv. */
  lemma ClashKeepsExtension(files: Files, dir: Path, stem: string, ext: string, now: int)
    requires |ext| >= 1 && ext[0] == '.' && '.' !in ext[1..]
    requires exists i :: 0 <= i < |stem| && stem[i] != '.'
    requires dir + [SentFolder, stem + ext] in files
    ensures SentDestination(files, dir + [stem + ext], now) == dir + [SentFolder, stem + "_" + IntToString(now) + ext]
  {
    var src := dir + [stem + ext];
    assert src[..|src| - 1] == dir;
    assert SentDir(src) + [stem + ext] == dir + [SentFolder, stem + ext];
    SplitExtOf(stem, ext);
  }

  /** A tree in which no regular file also has files below it. */
  predicate IsTree(files: Files)
  {
    forall p, q :: p in files && q in files && |p| < |q| ==> q[..|p|] != p
  }

  /** The suffixed name is not checked: a file already there is replaced. */
  lemma SuffixedNameOverwritten(files: Files, src: Path, now: int)
    requires IsTree(files)
    requires |src| >= 1 && src in files && !Blocked(files, SentDir(src))
    requires SentDir(src) + [src[|src| - 1]] in files
    requires SentDestination(files, src, now) in files
    ensures var (r, after) := ArchiveSent(files, src, now);
      r == Ok(SentDestination(files, src, now)) && after[SentDestination(files, src, now)] == files[src]
  {
    var dest := SentDestination(files, src, now);
    assert !IsDirectory(files, dest);
  }
}
