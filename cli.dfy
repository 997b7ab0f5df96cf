/** The command-line front end: ZIP extraction with its path-traversal guard, collection
    of image files from the command line, the flag overrides, and the control flow of
    `main` up to its exit status. The file system is a parameter; printing is not modelled. */
module Cli {
  import opened Py
  import opened Config
  import opened Presets
  import opened Pipeline

  /** Lines 28-31: a member name that is refused before anything is extracted. */
  predicate IsUnsafeMember(m: string) {
    StartsWith(m, "/") || Contains(m, "..") || StartsWith(m, "\\")
  }

  /** A name with a `..` segment anywhere is refused. */
  lemma TraversalIsUnsafe(a: string, b: string)
    ensures IsUnsafeMember(a + "../" + b)
  {
    var m := a + "../" + b;
    assert m[|a|..|a| + 2] == "..";
    assert OccursAt(m, "..", |a|);
  }

  /** A name without two consecutive dots has no `..` in it. */
  lemma NoDoubleDot(s: string)
    requires forall i :: 0 <= i < |s| - 1 ==> !(s[i] == '.' && s[i + 1] == '.')
    ensures !Contains(s, "..")
  {
    forall i | 0 <= i <= |s| - 2 ensures !OccursAt(s, "..", i) {
      assert s[i..i + 2][0] == s[i] && s[i..i + 2][1] == s[i + 1];
    }
  }

  /** The guard is a substring check: it also refuses harmless names containing two dots,
      and it accepts a drive-letter name. */
  lemma GuardExamples()
    ensures IsUnsafeMember("/etc/passwd")
    ensures IsUnsafeMember("a..b.png")
    ensures !IsUnsafeMember("C:/x.png")
    ensures !IsUnsafeMember("images/a.png")
  {
    assert OccursAt("a..b.png", "..", 1);
    assert "C:/x.png"[..1] == "C";
    NoDoubleDot("C:/x.png");
    assert "images/a.png"[..1] == "i";
    NoDoubleDot("images/a.png");
  }

  /** The first member the guard refuses, if any. */
  function FirstUnsafe(members: seq<string>): (r: Option<string>)
    ensures r.None? <==> forall i :: 0 <= i < |members| ==> !IsUnsafeMember(members[i])
    ensures r.Some? ==> exists i :: 0 <= i < |members| && members[i] == r.value && IsUnsafeMember(r.value)
                                  && forall j :: 0 <= j < i ==> !IsUnsafeMember(members[j])
  {
    if |members| == 0 then None
    else if IsUnsafeMember(members[0]) then Some(members[0])
    else
      var r := FirstUnsafe(members[1..]);
      if r.Some? then
        var i :| 0 <= i < |members[1..]| && members[1..][i] == r.value && IsUnsafeMember(r.value)
                 && forall j :: 0 <= j < i ==> !IsUnsafeMember(members[1..][j]);
        assert members[i + 1] == r.value;
        assert forall j :: 0 < j < i + 1 ==> members[j] == members[1..][j - 1];
        r
      else
        assert forall i :: 0 < i < |members| ==> members[i] == members[1..][i - 1];
        r
  }

  /** Extracting member `m` creates the path `p` (relative to the extraction directory):
      each directory above it, and the member itself unless it is a directory entry. */
  predicate CreatedBy(m: string, p: string) {
    || (exists j :: 0 < j < |m| && m[j] == '/' && p == m[..j])
    || (p == m && |m| > 0 && m[|m| - 1] != '/')
  }

  /** The directory prefixes `m[..j]` for the separators at `i` and after. */
  function DirPrefixes(m: string, i: nat): (ps: seq<string>)
    ensures forall p :: p in ps <==> exists j :: i <= j < |m| && 0 < j && m[j] == '/' && p == m[..j]
    decreases |m| - i
  {
    if i >= |m| then []
    else
      var rest := DirPrefixes(m, i + 1);
      (if 0 < i && m[i] == '/' then [m[..i]] else []) + rest
  }

  /** The paths one member creates, outermost directory first. */
  function MemberPaths(m: string): (ps: seq<string>)
    ensures forall p :: p in ps <==> CreatedBy(m, p)
  {
    DirPrefixes(m, 0) + (if |m| > 0 && m[|m| - 1] != '/' then [m] else [])
  }

  /** No path occurs twice. */
  predicate Distinct(s: seq<Path>) {
    forall i, j :: 0 <= i < j < |s| ==> s[i] != s[j]
  }

  /** `acc` followed by the elements of `xs` it does not hold yet, each once. */
  function AddNew(acc: seq<Path>, xs: seq<Path>): (r: seq<Path>)
    requires Distinct(acc)
    ensures Distinct(r)
    ensures forall q :: q in r <==> q in acc || q in xs
    decreases |xs|
  {
    if |xs| == 0 then acc
    else
      assert forall q :: q in xs <==> q == xs[0] || q in xs[1..];
      AddNew(if xs[0] in acc then acc else acc + [xs[0]], xs[1..])
  }

  /** Each path placed under `dir`. */
  function JoinAll(dir: Path, ps: seq<string>): (r: seq<Path>)
    ensures forall q :: q in r <==> exists p :: p in ps && q == Join(dir, p)
  {
    if |ps| == 0 then []
    else
      assert forall p :: p in ps <==> p == ps[0] || p in ps[1..];
      [Join(dir, ps[0])] + JoinAll(dir, ps[1..])
  }

  /** The paths under the extraction directory that `extractall` creates: every member's
      directories and files, each once, in the order the members first create them. */
  function ExtractedTree(tempDir: Path, members: seq<string>): (tree: seq<Path>)
    ensures Distinct(tree)
    ensures forall q :: q in tree <==> exists m, p :: m in members && CreatedBy(m, p) && q == Join(tempDir, p)
  {
    if |members| == 0 then []
    else
      var init := members[..|members| - 1];
      var last := members[|members| - 1];
      assert forall m :: m in members <==> m in init || m == last;
      AddNew(ExtractedTree(tempDir, init), JoinAll(tempDir, MemberPaths(last)))
  }

  /** `rglob("*" + ext)`: the paths whose name ends with `ext`, case-sensitively. */
  function Glob(files: seq<Path>, ext: string): (r: seq<Path>)
    ensures forall q :: q in r <==> q in files && EndsWith(Name(q), ext)
    ensures Distinct(files) ==> Distinct(r)
  {
    if |files| == 0 then []
    else
      var rest := Glob(files[1..], ext);
      assert forall q :: q in files <==> q == files[0] || q in files[1..];
      assert Distinct(files) ==> Distinct(files[1..]) && files[0] !in files[1..] by {
        if Distinct(files) {
          forall k | 0 <= k < |files| - 1 ensures files[1..][k] != files[0] && files[1..][k] == files[k + 1] {
          }
        }
      }
      (if EndsWith(Name(files[0]), ext) then [files[0]] else []) + rest
  }

  /** No name ends with two of the three archive patterns. */
  lemma ExtensionsExclusive(n: string)
    ensures !(EndsWith(n, ".jpg") && EndsWith(n, ".jpeg"))
    ensures !(EndsWith(n, ".jpg") && EndsWith(n, ".png"))
    ensures !(EndsWith(n, ".jpeg") && EndsWith(n, ".png"))
  {
    if EndsWith(n, ".jpg") { assert n[|n| - 2] == 'p'; }
    if EndsWith(n, ".jpeg") { assert n[|n| - 2] == 'e'; }
  }

  /** Two duplicate-free lists without a common element concatenate to a duplicate-free list. */
  lemma DistinctConcat(a: seq<Path>, b: seq<Path>)
    requires Distinct(a) && Distinct(b) && forall q :: q in a ==> q !in b
    ensures Distinct(a + b)
  {
    forall i, j | 0 <= i < j < |a + b| ensures (a + b)[i] != (a + b)[j] {
      if i < |a| && j >= |a| {
        assert (a + b)[i] in a && (a + b)[j] == b[j - |a|];
      }
    }
  }

  /** The images of the extracted tree; each once when the tree holds each path once. */
  function ArchiveImages(tree: seq<Path>): (r: seq<Path>)
    ensures Distinct(tree) ==> Distinct(r)
    ensures forall q :: q in r <==> q in tree && (EndsWith(Name(q), ".jpg") || EndsWith(Name(q), ".jpeg") || EndsWith(Name(q), ".png"))
  {
    var jpg := Glob(tree, ".jpg");
    var jpeg := Glob(tree, ".jpeg");
    var png := Glob(tree, ".png");
    assert Distinct(tree) ==> Distinct(jpg + jpeg + png) by {
      if Distinct(tree) {
        forall q | q in jpg || q in jpeg ensures q !in png && (q in jpg ==> q !in jpeg) {
          ExtensionsExclusive(Name(q));
        }
        DistinctConcat(jpg, jpeg);
        DistinctConcat(jpg + jpeg, png);
      }
    }
    jpg + jpeg + png
  }

  /** `extract_zip`: the archive's member list, or the exception opening it raised, and
      the exception `extractall` raises once the names have passed, if any (a member that
      needs a password, a corrupt entry). */
  function ExtractZip(archive: Result<seq<string>, PyException>, extraction: Option<PyException>, tempDir: Path): (r: Result<seq<Path>, PyException>)
    ensures archive.Err? ==> r == Err(archive.error)
    ensures archive.Ok? ==>
      (r.Ok? <==> (forall i :: 0 <= i < |archive.value| ==> !IsUnsafeMember(archive.value[i])) && extraction.None?)
    ensures archive.Ok? && FirstUnsafe(archive.value).Some? ==>
      r == Err(PyException(ValueError, "Unsafe path in ZIP: " + FirstUnsafe(archive.value).value))
    ensures archive.Ok? && FirstUnsafe(archive.value).None? && extraction.Some? ==> r == Err(extraction.value)
    ensures r.Ok? ==> Distinct(r.value)
    ensures r.Ok? ==> forall q :: q in r.value <==>
      && (exists m, p :: m in archive.value && CreatedBy(m, p) && q == Join(tempDir, p))
      && (EndsWith(Name(q), ".jpg") || EndsWith(Name(q), ".jpeg") || EndsWith(Name(q), ".png"))
  {
    match archive
    case Err(e) => Err(e)
    case Ok(members) =>
      match FirstUnsafe(members)
      case Some(m) => Err(PyException(ValueError, "Unsafe path in ZIP: " + m))
      case None =>
        match extraction
        case Some(e) => Err(e)
        case None => Ok(ArchiveImages(ExtractedTree(tempDir, members)))
  }

  /** A created path is a non-empty prefix of its member. */
  lemma CreatedIsPrefix(m: string, p: string)
    requires CreatedBy(m, p)
    ensures 0 < |p| <= |m| && m[..|p|] == p
  {
  }

  /** A path joined under `dir` starts with `dir` and a separator. */
  lemma JoinIsInside(dir: Path, p: string)
    ensures StartsWith(Join(dir, p), dir + "/")
  {
    assert Join(dir, p)[..|dir + "/"|] == dir + "/";
  }

  lemma ImagesAreInTree(archive: Result<seq<string>, PyException>, extraction: Option<PyException>, tempDir: Path, q: Path)
    requires ExtractZip(archive, extraction, tempDir).Ok? && q in ExtractZip(archive, extraction, tempDir).value
    ensures q in ExtractedTree(tempDir, archive.value)
    ensures forall i :: 0 <= i < |archive.value| ==> !IsUnsafeMember(archive.value[i])
  {
  }

  /** Every extracted image lies under the extraction directory, at a path that a member the
      guard accepted names or lies below. */
  lemma ExtractedStayInside(archive: Result<seq<string>, PyException>, extraction: Option<PyException>, tempDir: Path, q: Path)
    requires ExtractZip(archive, extraction, tempDir).Ok? && q in ExtractZip(archive, extraction, tempDir).value
    ensures StartsWith(q, tempDir + "/")
    ensures exists m, p :: m in archive.value && !IsUnsafeMember(m) && StartsWith(m, p) && q == Join(tempDir, p)
  {
    var members := archive.value;
    ImagesAreInTree(archive, extraction, tempDir, q);
    var m, p :| m in members && CreatedBy(m, p) && q == Join(tempDir, p);
    CreatedIsPrefix(m, p);
    JoinIsInside(tempDir, p);
    var i :| 0 <= i < |members| && members[i] == m;
    assert !IsUnsafeMember(m) && StartsWith(m, p);
  }

  /** Positions from `i` up to `k` that hold no separator (or are the first) add no directory. */
  lemma {:induction false} PrefixesSkip(m: string, i: nat, k: nat)
    requires i <= k <= |m|
    requires forall j :: i <= j < k && 0 < j ==> m[j] != '/'
    ensures DirPrefixes(m, i) == DirPrefixes(m, k)
    decreases k - i
  {
    if i < k {
      PrefixesSkip(m, i + 1, k);
    }
  }

  /** A member without a separator creates itself and nothing else. */
  lemma SingleFileMember(m: string)
    requires |m| > 0 && '/' !in m
    ensures MemberPaths(m) == [m]
  {
    forall j | 0 <= j < |m| && 0 < j ensures m[j] != '/' {
      assert m[j] in m;
    }
    PrefixesSkip(m, 0, |m|);
  }

  /** A member `d/f` creates the directory `d` and then the file `d/f`. */
  lemma NestedFileMember(d: string, f: string)
    requires |d| > 0 && |f| > 0 && '/' !in d && '/' !in f
    ensures MemberPaths(d + "/" + f) == [d, d + "/" + f]
  {
    var m := d + "/" + f;
    forall j | 0 < j < |d| ensures m[j] != '/' {
      assert m[j] == d[j] && d[j] in d;
    }
    PrefixesSkip(m, 0, |d|);
    forall j | |d| + 1 <= j < |m| ensures m[j] != '/' {
      assert m[j] == f[j - |d| - 1] && f[j - |d| - 1] in f;
    }
    PrefixesSkip(m, |d| + 1, |m|);
    assert m[..|d|] == d;
  }

  /** A ZIP's images are found by lower-case pattern only. */
  lemma ZipIsCaseSensitive()
    ensures ExtractZip(Ok(["A.JPG"]), None, "t") == Ok([])
  {
    assert !IsUnsafeMember("A.JPG") by {
      assert "A.JPG"[..1] == "A";
      NoDoubleDot("A.JPG");
    }
    assert FirstUnsafe(["A.JPG"]) == None;
    SingleFileMember("A.JPG");
    JoinAllSingle("t", "A.JPG");
    TreeOfOne("t", "A.JPG");
    assert Join("t", "A.JPG") == "t/A.JPG";
    AddNewSingle([], "t/A.JPG");
    assert ExtractedTree("t", ["A.JPG"]) == ["t/A.JPG"];
    ArchiveImagesUnfold(["t/A.JPG"]);
    SafeArchive(["A.JPG"], "t");
    UpperCaseIsNotMatched();
  }

  lemma JoinNested(dir: Path, d: string, f: string)
    ensures Join(dir, d + "/" + f) == Join(Join(dir, d), f)
  {
  }

  lemma GlobSingle(q: Path, ext: string)
    ensures Glob([q], ext) == if EndsWith(Name(q), ext) then [q] else []
  {
    assert [q][1..] == [];
  }

  lemma GlobPair(a: Path, b: Path, ext: string)
    ensures Glob([a, b], ext) == (if EndsWith(Name(a), ext) then [a] else []) + (if EndsWith(Name(b), ext) then [b] else [])
  {
    assert [a, b][1..] == [b];
    GlobSingle(b, ext);
  }

  lemma JoinAllSingle(dir: Path, p: string)
    ensures JoinAll(dir, [p]) == [Join(dir, p)]
  {
    assert [p][1..] == [];
  }

  lemma TreeOfOne(tempDir: Path, m: string)
    ensures ExtractedTree(tempDir, [m]) == AddNew([], JoinAll(tempDir, MemberPaths(m)))
  {
    assert [m][..0] == [];
  }

  lemma AddNewSingle(acc: seq<Path>, x: Path)
    requires Distinct(acc)
    ensures AddNew(acc, [x]) == if x in acc then acc else acc + [x]
  {
    assert [x][1..] == [];
  }

  /** An archive the guard accepts yields the images of its extracted tree. */
  lemma SafeArchive(members: seq<string>, tempDir: Path)
    requires FirstUnsafe(members) == None
    ensures ExtractZip(Ok(members), None, tempDir) == Ok(ArchiveImages(ExtractedTree(tempDir, members)))
  {
  }

  lemma ArchiveImagesUnfold(tree: seq<Path>)
    ensures ArchiveImages(tree) == Glob(tree, ".jpg") + Glob(tree, ".jpeg") + Glob(tree, ".png")
  {
  }

  lemma AddNewPair(a: Path, b: Path)
    requires a != b
    ensures AddNew([], [a, b]) == [a, b]
  {
    assert [a, b][1..] == [b] && [] + [a] == [a];
    AddNewSingle([a], b);
  }

  lemma TreeOfTwice(tempDir: Path, f: string)
    requires |f| > 0 && '/' !in f
    ensures ExtractedTree(tempDir, [f, f]) == [Join(tempDir, f)]
  {
    var q := Join(tempDir, f);
    SingleFileMember(f);
    JoinAllSingle(tempDir, f);
    TreeOfOne(tempDir, f);
    AddNewSingle([], q);
    assert ExtractedTree(tempDir, [f, f]) == AddNew([q], [q]) by {
      assert [f, f][..1] == [f];
    }
    AddNewSingle([q], q);
  }

  lemma ImagesOfOne(q: Path)
    requires EndsWith(Name(q), ".png")
    ensures ArchiveImages([q]) == [q]
  {
    ExtensionsExclusive(Name(q));
    GlobSingle(q, ".jpg");
    GlobSingle(q, ".jpeg");
    GlobSingle(q, ".png");
    ArchiveImagesUnfold([q]);
  }

  /** An image member the archive lists twice is extracted once, so it is found once. */
  lemma DuplicateMemberFoundOnce(tempDir: Path, f: string)
    requires |f| > 0 && '/' !in f && !IsUnsafeMember(f) && EndsWith(f, ".png")
    ensures ExtractZip(Ok([f, f]), None, tempDir) == Ok([Join(tempDir, f)])
  {
    assert FirstUnsafe([f, f][1..]) == None;
    TreeOfTwice(tempDir, f);
    JoinName(tempDir, f);
    ImagesOfOne(Join(tempDir, f));
    SafeArchive([f, f], tempDir);
  }

  lemma TreeOfNested(tempDir: Path, d: string, f: string)
    requires |d| > 0 && |f| > 0 && '/' !in d && '/' !in f
    ensures ExtractedTree(tempDir, [d + "/" + f]) == [Join(tempDir, d), Join(tempDir, d + "/" + f)]
  {
    var m := d + "/" + f;
    var qd, qf := Join(tempDir, d), Join(tempDir, m);
    NestedFileMember(d, f);
    assert JoinAll(tempDir, [d, m]) == [qd, qf] by {
      assert [d, m][1..] == [m];
      JoinAllSingle(tempDir, m);
    }
    TreeOfOne(tempDir, m);
    assert qd != qf by {
      assert |qd| == |tempDir| + 1 + |d|;
      assert |qf| == |tempDir| + 2 + |d| + |f|;
    }
    AddNewPair(qd, qf);
  }

  lemma ImagesOfPair(qd: Path, qf: Path)
    requires EndsWith(Name(qd), ".png")
    requires !(EndsWith(Name(qf), ".jpg") || EndsWith(Name(qf), ".jpeg") || EndsWith(Name(qf), ".png"))
    requires qd != qf
    ensures ArchiveImages([qd, qf]) == [qd]
  {
    ExtensionsExclusive(Name(qd));
    GlobPair(qd, qf, ".jpg");
    GlobPair(qd, qf, ".jpeg");
    GlobPair(qd, qf, ".png");
    assert Glob([qd, qf], ".jpg") == [];
    assert Glob([qd, qf], ".jpeg") == [];
    assert Glob([qd, qf], ".png") == [qd];
    ArchiveImagesUnfold([qd, qf]);
    assert [] + [] + [qd] == [qd];
  }

  /** `rglob` also matches directories: a member `d/f` below a directory `d` named like an
      image makes that directory, and it is found as an image. */
  lemma DirectoryNamedLikeImageFound(tempDir: Path, d: string, f: string)
    requires |d| > 0 && |f| > 0 && '/' !in d && '/' !in f && !IsUnsafeMember(d + "/" + f)
    requires EndsWith(d, ".png")
    requires !(EndsWith(f, ".jpg") || EndsWith(f, ".jpeg") || EndsWith(f, ".png"))
    ensures ExtractZip(Ok([d + "/" + f]), None, tempDir) == Ok([Join(tempDir, d)])
  {
    var qd, qf := Join(tempDir, d), Join(tempDir, d + "/" + f);
    assert FirstUnsafe([d + "/" + f]) == None;
    TreeOfNested(tempDir, d, f);
    JoinName(tempDir, d);
    JoinNested(tempDir, d, f);
    JoinName(qd, f);
    assert qd != qf by {
      assert |qd| == |tempDir| + 1 + |d|;
      assert |qf| == |tempDir| + 2 + |d| + |f|;
    }
    ImagesOfPair(qd, qf);
    SafeArchive([d + "/" + f], tempDir);
  }

  lemma UpperCaseIsNotMatched()
    ensures Glob(["t/A.JPG"], ".jpg") == [] && Glob(["t/A.JPG"], ".jpeg") == [] && Glob(["t/A.JPG"], ".png") == []
  {
    assert LastIndexOf("t/A.JPG", '/') == 1 by {
      assert "t/A.JPG"[1] == '/';
      assert forall j :: 1 < j < 7 ==> "t/A.JPG"[j] != '/';
    }
    assert Name("t/A.JPG") == "A.JPG";
    assert !EndsWith("A.JPG", ".jpg") && !EndsWith("A.JPG", ".jpeg") && !EndsWith("A.JPG", ".png");
  }

  /** What a command-line path is on the file system. */
  datatype Entry =
    | Missing
    // when read as a ZIP: opening it, what `extractall` raises, and the fresh mkdtemp directory
    | File(archive: Result<seq<string>, PyException>, extraction: Option<PyException>, tempDir: Path)
    | Dir(files: seq<Path>)                                          // every file and directory below it
    | Other                                                          // exists, but neither a file nor a directory

  /** Lines 76-79: each extension, then its upper-case form. */
  function DirectoryImages(files: seq<Path>): seq<Path> {
    Glob(files, ".jpg") + Glob(files, ".JPG") + Glob(files, ".jpeg") + Glob(files, ".JPEG")
    + Glob(files, ".png") + Glob(files, ".PNG")
  }

  /** Lines 56-79: what one command-line path adds to the image list. */
  function Contribution(p: Path, e: Entry): Result<seq<Path>, PyException> {
    match e
    case Missing => Ok([])
    case Other => Ok([])
    case Dir(files) => Ok(DirectoryImages(files))
    case File(archive, extraction, tempDir) =>
      var ext := Lower(Suffix(Name(p)));
      if ext == ".zip" then ExtractZip(archive, extraction, tempDir)
      else if ext == ".jpg" || ext == ".jpeg" || ext == ".png" then Ok([p])
      else Ok([])
  }

  /** `collect_image_files` on the paths in order; an exception from a ZIP ends it. */
  function Collected(paths: seq<string>, fs: Path -> Entry): Result<seq<Path>, PyException> {
    if |paths| == 0 then Ok([])
    else
      match Collected(paths[..|paths| - 1], fs)
      case Err(e) => Err(e)
      case Ok(init) =>
        var last := paths[|paths| - 1];
        match Contribution(last, fs(last))
        case Err(e) => Err(e)
        case Ok(more) => Ok(init + more)
  }

  /** `collect_image_files`. */
  method CollectImageFiles(paths: seq<string>, fs: Path -> Entry) returns (r: Result<seq<Path>, PyException>)
    ensures r == Collected(paths, fs)
  {
    var images: seq<Path> := [];
    var i := 0;
    while i < |paths|
      invariant 0 <= i <= |paths|
      invariant Collected(paths[..i], fs) == Ok(images)
    {
      assert paths[..i + 1][..i] == paths[..i];
      var more := Contribution(paths[i], fs(paths[i]));
      if more.Err? {
        assert Collected(paths[..i + 1], fs) == Err(more.error);
        CollectedStopsAtError(paths, fs, i + 1);
        return Err(more.error);
      }
      images := images + more.value;
      i := i + 1;
    }
    assert paths[..i] == paths;
    return Ok(images);
  }

  /** Once a prefix has failed, the whole list fails the same way. */
  lemma {:induction false} CollectedStopsAtError(paths: seq<string>, fs: Path -> Entry, n: int)
    requires 0 <= n <= |paths| && Collected(paths[..n], fs).Err?
    ensures Collected(paths, fs) == Collected(paths[..n], fs)
    decreases |paths| - n
  {
    if n < |paths| {
      assert paths[..n + 1][..n] == paths[..n];
      CollectedStopsAtError(paths, fs, n + 1);
    } else {
      assert paths[..n] == paths;
    }
  }

  /** Paths that do not exist are skipped (with a warning) and end nothing. */
  lemma {:induction false} MissingPathsSkipped(paths: seq<string>, fs: Path -> Entry)
    requires forall i :: 0 <= i < |paths| ==> fs(paths[i]) == Missing
    ensures Collected(paths, fs) == Ok([])
  {
    if |paths| > 0 {
      MissingPathsSkipped(paths[..|paths| - 1], fs);
      var last := paths[|paths| - 1];
      assert fs(last) == Missing;
      assert Contribution(last, fs(last)) == Ok([]);
      var init := Collected(paths[..|paths| - 1], fs).value;
      assert init == [];
      assert Collected(paths, fs) == Ok(init + []);
      assert init + [] == [];
    }
  }

  /** The name ends with one of the image extensions, ignoring case. */
  predicate LooksLikeImage(q: Path) {
    var n := Lower(Name(q));
    EndsWith(n, ".jpg") || EndsWith(n, ".jpeg") || EndsWith(n, ".png")
  }

  /** A name ending with `ext` ends, once lowered, with the lowered `ext`. */
  lemma EndsWithLowered(s: string, ext: string, lowered: string)
    requires EndsWith(s, ext) && |lowered| == |ext|
    requires forall k :: 0 <= k < |ext| ==> LowerChar(ext[k]) == lowered[k]
    ensures EndsWith(Lower(s), lowered)
  {
    assert Lower(s)[|s| - |ext|..] == lowered by {
      forall k | 0 <= k < |ext| ensures Lower(s)[|s| - |ext|..][k] == lowered[k] {
        assert s[|s| - |ext| + k] == s[|s| - |ext|..][k];
      }
    }
  }

  /** `lowered` is `ext` with its letters in lower case. */
  predicate LowersTo(ext: string, lowered: string) {
    |lowered| == |ext| && forall k :: 0 <= k < |ext| ==> LowerChar(ext[k]) == lowered[k]
  }

  lemma ExtensionsLower()
    ensures LowersTo(".jpg", ".jpg") && LowersTo(".JPG", ".jpg")
    ensures LowersTo(".jpeg", ".jpeg") && LowersTo(".JPEG", ".jpeg")
    ensures LowersTo(".png", ".png") && LowersTo(".PNG", ".png")
  {
    assert LowerChar('J') == 'j' && LowerChar('P') == 'p' && LowerChar('G') == 'g';
    assert LowerChar('E') == 'e' && LowerChar('N') == 'n';
  }

  lemma GlobLooksLikeImage(files: seq<Path>, ext: string, lowered: string, q: Path)
    requires q in Glob(files, ext) && LowersTo(ext, lowered)
    requires lowered == ".jpg" || lowered == ".jpeg" || lowered == ".png"
    ensures LooksLikeImage(q)
  {
    EndsWithLowered(Name(q), ext, lowered);
  }

  lemma DirectoryLooksLikeImages(files: seq<Path>, q: Path)
    requires q in DirectoryImages(files)
    ensures LooksLikeImage(q)
  {
    ExtensionsLower();
    if q in Glob(files, ".jpg") { GlobLooksLikeImage(files, ".jpg", ".jpg", q); }
    else if q in Glob(files, ".JPG") { GlobLooksLikeImage(files, ".JPG", ".jpg", q); }
    else if q in Glob(files, ".jpeg") { GlobLooksLikeImage(files, ".jpeg", ".jpeg", q); }
    else if q in Glob(files, ".JPEG") { GlobLooksLikeImage(files, ".JPEG", ".jpeg", q); }
    else if q in Glob(files, ".png") { GlobLooksLikeImage(files, ".png", ".png", q); }
    else { GlobLooksLikeImage(files, ".PNG", ".png", q); }
  }

  lemma ZipLooksLikeImages(archive: Result<seq<string>, PyException>, extraction: Option<PyException>, tempDir: Path, q: Path)
    requires ExtractZip(archive, extraction, tempDir).Ok? && q in ExtractZip(archive, extraction, tempDir).value
    ensures LooksLikeImage(q)
  {
    ExtensionsLower();
    if EndsWith(Name(q), ".jpg") { EndsWithLowered(Name(q), ".jpg", ".jpg"); }
    else if EndsWith(Name(q), ".jpeg") { EndsWithLowered(Name(q), ".jpeg", ".jpeg"); }
    else { EndsWithLowered(Name(q), ".png", ".png"); }
  }

  lemma FileLooksLikeImage(p: Path)
    requires var ext := Lower(Suffix(Name(p))); ext == ".jpg" || ext == ".jpeg" || ext == ".png"
    ensures LooksLikeImage(p)
  {
    var n := Name(p);
    StemAndSuffixSplitTheName(n);
    assert n[|n| - |Suffix(n)|..] == Suffix(n);
    EndsWithLowered(n, Suffix(n), Lower(Suffix(n)));
  }

  /** Everything a path contributes has an image name. */
  lemma DirContributionLooksLikeImages(p: Path, files: seq<Path>, q: Path)
    requires Contribution(p, Dir(files)).Ok? && q in Contribution(p, Dir(files)).value
    ensures LooksLikeImage(q)
  {
    assert q in DirectoryImages(files);
    DirectoryLooksLikeImages(files, q);
  }

  lemma ZipContributionLooksLikeImages(p: Path, archive: Result<seq<string>, PyException>, extraction: Option<PyException>, tempDir: Path, q: Path)
    requires Lower(Suffix(Name(p))) == ".zip"
    requires Contribution(p, File(archive, extraction, tempDir)).Ok? && q in Contribution(p, File(archive, extraction, tempDir)).value
    ensures LooksLikeImage(q)
  {
    assert Contribution(p, File(archive, extraction, tempDir)) == ExtractZip(archive, extraction, tempDir);
    ZipLooksLikeImages(archive, extraction, tempDir, q);
  }

  lemma FileContributionLooksLikeImage(p: Path, archive: Result<seq<string>, PyException>, extraction: Option<PyException>, tempDir: Path, q: Path)
    requires Lower(Suffix(Name(p))) != ".zip"
    requires Contribution(p, File(archive, extraction, tempDir)).Ok? && q in Contribution(p, File(archive, extraction, tempDir)).value
    ensures LooksLikeImage(q)
  {
    var ext := Lower(Suffix(Name(p)));
    assert ext == ".jpg" || ext == ".jpeg" || ext == ".png";
    assert q == p;
    FileLooksLikeImage(p);
  }

  /** Whatever one command-line path contributes has an image name (case ignored). */
  lemma ContributionLooksLikeImages(p: Path, e: Entry, q: Path)
    requires Contribution(p, e).Ok? && q in Contribution(p, e).value
    ensures LooksLikeImage(q)
  {
    match e
    case Missing =>
    case Other =>
    case Dir(files) =>
      DirContributionLooksLikeImages(p, files, q);
    case File(archive, extraction, tempDir) =>
      if Lower(Suffix(Name(p))) == ".zip" {
        ZipContributionLooksLikeImages(p, archive, extraction, tempDir, q);
      } else {
        FileContributionLooksLikeImage(p, archive, extraction, tempDir, q);
      }
  }

  /** Every collected file has an image name (case ignored). */
  lemma {:induction false} CollectedLookLikeImages(paths: seq<string>, fs: Path -> Entry, q: Path)
    requires Collected(paths, fs).Ok? && q in Collected(paths, fs).value
    ensures LooksLikeImage(q)
  {
    var init := Collected(paths[..|paths| - 1], fs);
    var last := paths[|paths| - 1];
    if q in init.value {
      CollectedLookLikeImages(paths[..|paths| - 1], fs, q);
    } else {
      ContributionLooksLikeImages(last, fs(last), q);
    }
  }

  lemma NameOfExample()
    ensures Name("d/a.Jpg") == "a.Jpg"
  {
    assert LastIndexOf("d/a.Jpg", '/') == 1 by {
      assert "d/a.Jpg"[1] == '/';
      assert forall j :: 1 < j < 7 ==> "d/a.Jpg"[j] != '/';
    }
  }

  /** A single file is accepted whatever the case of its extension ... */
  lemma MixedCaseFileAccepted()
    ensures Contribution("d/a.Jpg", File(Ok([]), None, "t")) == Ok(["d/a.Jpg"])
  {
    NameOfExample();
    assert LastIndexOf("a.Jpg", '.') == 1 by {
      assert "a.Jpg"[1] == '.';
      assert forall j :: 1 < j < 5 ==> "a.Jpg"[j] != '.';
    }
    assert SuffixStart("a.Jpg") == 1;
    assert Suffix("a.Jpg") == ".Jpg";
    assert LowerChar('J') == 'j';
    assert Lower(".Jpg") == ".jpg";
  }

  /** ... but a directory is searched with lower- and upper-case patterns only. */
  lemma MixedCaseInDirectorySkipped()
    ensures Contribution("d", Dir(["d/a.Jpg"])) == Ok([])
  {
    NameOfExample();
    var files := ["d/a.Jpg"];
    assert !EndsWith("a.Jpg", ".jpg") && !EndsWith("a.Jpg", ".JPG");
    assert !EndsWith("a.Jpg", ".jpeg") && !EndsWith("a.Jpg", ".JPEG");
    assert !EndsWith("a.Jpg", ".png") && !EndsWith("a.Jpg", ".PNG");
    assert Glob(files, ".jpg") == [] && Glob(files, ".JPG") == [];
    assert Glob(files, ".jpeg") == [] && Glob(files, ".JPEG") == [];
    assert Glob(files, ".png") == [] && Glob(files, ".PNG") == [];
  }

  /** The command line after argparse. */
  datatype CliArgs = CliArgs(
    input: seq<string>, output: Option<string>, preset: Option<string>,
    listPresets: bool, listThemes: bool,
    width: Option<int>, height: Option<int>,
    noBgRemoval: bool, noAutoCrop: bool, fillRatio: Option<real>, padding: Option<int>,
    format: Option<string>, compress: Option<int>, noOptimize: bool,
    saveConfig: Option<string>, loadConfig: Option<string>, verbose: bool)

  /** The argparse `choices` of --format and --compress; anything else exits with status 2. */
  predicate Accepted(args: CliArgs) {
    && (args.format.None? || args.format.value == "PNG" || args.format.value == "JPEG")
    && (args.compress.None? || 0 <= args.compress.value <= 9)
  }

  /** Python truthiness of an optional argument: given and not zero or empty. */
  predicate IntGiven(o: Option<int>) { o.Some? && o.value != 0 }
  predicate RealGiven(o: Option<real>) { o.Some? && o.value != 0.0 }
  predicate StrGiven(o: Option<string>) { o.Some? && o.value != "" }

  /** Lines 249-269: the flags applied over the base settings; None when the fill ratio
      is given but outside (0, 1]. */
  function ApplyOverrides(base: ProcessingConfig, args: CliArgs): (r: Option<ProcessingConfig>)
    ensures r.None? <==> RealGiven(args.fillRatio) && !(0.0 < args.fillRatio.value <= 1.0)
    ensures r.Some? ==>
      && r.value.targetWidth == (if IntGiven(args.width) then args.width.value else base.targetWidth)
      && r.value.targetHeight == (if IntGiven(args.height) then args.height.value else base.targetHeight)
      && r.value.removeBackground == (base.removeBackground && !args.noBgRemoval)
      && r.value.autoCrop == (base.autoCrop && !args.noAutoCrop)
      && r.value.fillRatio == (if RealGiven(args.fillRatio) then args.fillRatio.value else base.fillRatio)
      && r.value.cropPadding == (if IntGiven(args.padding) then args.padding.value else base.cropPadding)
      && r.value.outputFormat == (if StrGiven(args.format) then args.format.value else base.outputFormat)
      && r.value.compressLevel == (if args.compress.Some? then args.compress.value else base.compressLevel)
      && r.value.optimize == (base.optimize && !args.noOptimize)
      && r.value.minDimension == base.minDimension
  {
    if RealGiven(args.fillRatio) && !(0.0 < args.fillRatio.value <= 1.0) then None
    else
      Some(ProcessingConfig(
        if IntGiven(args.width) then args.width.value else base.targetWidth,
        if IntGiven(args.height) then args.height.value else base.targetHeight,
        if args.noBgRemoval then false else base.removeBackground,
        if args.noAutoCrop then false else base.autoCrop,
        if IntGiven(args.padding) then args.padding.value else base.cropPadding,
        if RealGiven(args.fillRatio) then args.fillRatio.value else base.fillRatio,
        base.minDimension,
        if StrGiven(args.format) then args.format.value else base.outputFormat,
        if args.compress.Some? then args.compress.value else base.compressLevel,
        if args.noOptimize then false else base.optimize))
  }

  /** Applying the same flags twice changes nothing more. */
  lemma OverridesIdempotent(base: ProcessingConfig, args: CliArgs)
    requires ApplyOverrides(base, args).Some?
    ensures ApplyOverrides(ApplyOverrides(base, args).value, args) == ApplyOverrides(base, args)
  {
  }

  /** The truthiness checks at lines 249-263 ignore `--padding 0` and `-w 0`, while `--compress 0`
      (checked with `is not None`) is applied. */
  lemma ZeroFlags(base: ProcessingConfig, args: CliArgs)
    requires args.padding == Some(0) && args.width == Some(0) && args.compress == Some(0)
    requires !RealGiven(args.fillRatio)
    ensures ApplyOverrides(base, args).Some?
    ensures ApplyOverrides(base, args).value.cropPadding == base.cropPadding
    ensures ApplyOverrides(base, args).value.targetWidth == base.targetWidth
    ensures ApplyOverrides(base, args).value.compressLevel == 0
  {
  }

  /** With a fill ratio that has passed validation, a preset's canvas stays valid. */
  lemma OverridesKeepFillRatioValid(base: ProcessingConfig, args: CliArgs)
    requires 0.0 < base.fillRatio <= 1.0 && ApplyOverrides(base, args).Some?
    ensures 0.0 < ApplyOverrides(base, args).value.fillRatio <= 1.0
  {
  }

  /** How `main` ends. */
  datatype CliOutcome =
    | ArgumentError                     // argparse rejects a choice
    | Listing(names: seq<string>)       // --list-presets or --list-themes
    | Usage                             // no input: help is printed
    | Crashed(exception: PyException)   // an exception nothing catches
    | UnknownPreset(exception: PyException)
    | BadFillRatio
    | NoImages
    | Finished(summary: BatchSummary, errors: seq<string>)

  /** `sys.exit` status; an uncaught exception exits with 1. */
  function ExitCode(o: CliOutcome): int {
    match o
    case ArgumentError => 2
    case Listing(_) => 0
    case Finished(s, _) => if s.failed == 0 then 0 else 1
    case _ => 1
  }

  /** The settings file a --load-config name reads, or the defaults. `load_config` ignores a
      missing file, so the FileNotFoundError handler of line 232 never runs. */
  function Loaded(args: CliArgs, files: map<string, Dict>): Result<ProcessingConfig, PyException> {
    if StrGiven(args.loadConfig) && args.loadConfig.value in files then FromDict(files[args.loadConfig.value])
    else Ok(DefaultConfig())
  }

  /** Lines 224-269: the settings the batch runs with, or how `main` stops before it. */
  function Settings(args: CliArgs, files: map<string, Dict>): Result<ProcessingConfig, CliOutcome> {
    match Loaded(args, files)
    case Err(e) => Err(Crashed(e))
    case Ok(loaded) =>
      var base := if StrGiven(args.preset) then GetPreset(args.preset.value) else Ok(loaded);
      match base
      case Err(e) => Err(UnknownPreset(e))
      case Ok(b) =>
        match ApplyOverrides(b, args)
        case None => Err(BadFillRatio)
        case Some(c) => Ok(c)
  }

  /** Line 288: `Path("./output")` is `output`. */
  function OutputDir(args: CliArgs): Path {
    if StrGiven(args.output) then args.output.value else "output"
  }

  /** The failure mark of line 329. The source file stores it as the three characters
      U+00E2 U+0153 U+2014 (a UTF-8 "✗" decoded as Windows-1252), and that is what is printed. */
  const FailureMark: string := "\U{00E2}\U{0153}\U{2014}"

  /** Line 329: the line printed for a failed entry (`None` prints as "None"). */
  function ErrorLine(r: ItemResult): string {
    "  " + FailureMark + " " + r.input + ": " + (if r.error.Some? then r.error.value else "None")
  }

  /** Lines 325-329: one line per failed entry, in batch order. */
  function ErrorLines(rs: seq<ItemResult>): (lines: seq<string>)
    ensures |lines| == |rs| - CountSuccess(rs)
  {
    if |rs| == 0 then []
    else
      var r := rs[|rs| - 1];
      ErrorLines(rs[..|rs| - 1]) + (if r.success then [] else [ErrorLine(r)])
  }

  /** Every failed entry has its line among the error lines. */
  lemma {:induction false} FailuresAreListed(rs: seq<ItemResult>, k: int)
    requires 0 <= k < |rs| && !rs[k].success
    ensures ErrorLine(rs[k]) in ErrorLines(rs)
  {
    var init := rs[..|rs| - 1];
    if k < |rs| - 1 {
      assert init[k] == rs[k];
      FailuresAreListed(init, k);
    }
  }

  /** Lines 224-284: the settings store is read, the preset or stored settings are taken,
      the flags applied, and the result saved when --save-config names a file. */
  method Configure(args: CliArgs, files: map<string, Dict>)
    returns (settings: Result<ProcessingConfig, CliOutcome>, store: map<string, Dict>)
    ensures settings == Settings(args, files)
    ensures store == if settings.Ok? && StrGiven(args.saveConfig) then files[args.saveConfig.value := ToDict(settings.value)] else files
  {
    var m := new ConfigManager(files);
    if StrGiven(args.loadConfig) {
      var raised := m.LoadConfig(args.loadConfig.value);
      if raised.Some? {
        return Err(Crashed(raised.value)), m.files;
      }
    }
    var base: ProcessingConfig;
    if StrGiven(args.preset) {
      var p := GetPreset(args.preset.value);
      if p.Err? {
        return Err(UnknownPreset(p.error)), m.files;
      }
      base := p.value;
    } else {
      base := m.processingConfig;
    }
    var overridden := ApplyOverrides(base, args);
    if overridden.None? {
      return Err(BadFillRatio), m.files;
    }
    var config := overridden.value;
    if StrGiven(args.saveConfig) {
      m.processingConfig := config;
      m.SaveConfig(args.saveConfig.value);
    }
    return Ok(config), m.files;
  }

  /** `main`: `files` is the settings store, `fs` what each command-line path is. */
  method Run(args: CliArgs, files: map<string, Dict>, fs: Path -> Entry, env: Env)
    returns (outcome: CliOutcome, store: map<string, Dict>)
    ensures !Accepted(args) ==> outcome == ArgumentError && store == files
    ensures Accepted(args) && args.listPresets ==> outcome == Listing(ListPresets()) && store == files
    ensures Accepted(args) && !args.listPresets && args.listThemes ==> outcome == Listing(ListThemes()) && store == files
    ensures Accepted(args) && !args.listPresets && !args.listThemes && |args.input| == 0 ==> outcome == Usage && store == files
    ensures Accepted(args) && !args.listPresets && !args.listThemes && |args.input| > 0 ==>
      && (Settings(args, files).Err? ==> outcome == Settings(args, files).error && store == files)
      && (Settings(args, files).Ok? ==>
            store == if StrGiven(args.saveConfig) then files[args.saveConfig.value := ToDict(Settings(args, files).value)] else files)
    ensures outcome.Finished? ==>
      && Accepted(args) && !args.listPresets && !args.listThemes && Settings(args, files).Ok?
      && Collected(args.input, fs).Ok? && |Collected(args.input, fs).value| > 0
      && env.makeDirs(OutputDir(args)).None?
      && outcome.summary.results == Items(Settings(args, files).value, Collected(args.input, fs).value, OutputDir(args), env)
      && outcome.summary.total == |Collected(args.input, fs).value|
      && outcome.summary.success + outcome.summary.failed == outcome.summary.total
      && outcome.summary.success == CountSuccess(outcome.summary.results)
      && outcome.errors == ErrorLines(outcome.summary.results)
    ensures outcome == NoImages ==> Collected(args.input, fs) == Ok([])
    ensures Accepted(args) && !args.listPresets && !args.listThemes && |args.input| > 0 && Settings(args, files).Ok? ==>
      var found := Collected(args.input, fs);
      && (found.Err? ==> outcome == Crashed(found.error))
      && (found == Ok([]) ==> outcome == NoImages)
      && (found.Ok? && |found.value| > 0 && env.makeDirs(OutputDir(args)).Some? ==>
            outcome == Crashed(env.makeDirs(OutputDir(args)).value))
      && (found.Ok? && |found.value| > 0 && env.makeDirs(OutputDir(args)).None? ==> outcome.Finished?)
  {
    if !Accepted(args) {
      return ArgumentError, files;
    }
    if args.listPresets {
      return Listing(ListPresets()), files;
    }
    if args.listThemes {
      return Listing(ListThemes()), files;
    }
    if |args.input| == 0 {
      return Usage, files;
    }
    var settings;
    settings, store := Configure(args, files);
    if settings.Err? {
      return settings.error, store;
    }
    var config := settings.value;
    var images := CollectImageFiles(args.input, fs);
    if images.Err? {
      return Crashed(images.error), store;
    }
    if |images.value| == 0 {
      return NoImages, store;
    }
    var outDir := OutputDir(args);
    if env.makeDirs(outDir).Some? {
      return Crashed(env.makeDirs(outDir).value), store;
    }
    var batch, progress := BatchProcess(images.value, outDir, Some(config), env, args.verbose);
    outcome := Finished(batch.value, ErrorLines(batch.value.results));
  }

  /** The exit status is 0 exactly for a listing or a batch in which every entry succeeded. */
  lemma ExitStatus(o: CliOutcome)
    requires o.Finished? ==>
      o.summary.success + o.summary.failed == |o.summary.results| && o.summary.success == CountSuccess(o.summary.results)
    ensures ExitCode(o) == 0 <==>
      o.Listing? || (o.Finished? && forall k :: 0 <= k < |o.summary.results| ==> o.summary.results[k].success)
  {
    if o.Finished? {
      AllSucceededIff(o.summary.results);
    }
  }

  /** A run ends with an error line exactly for each failed entry. */
  lemma {:induction false} ErrorLinesOnlyForFailures(rs: seq<ItemResult>)
    ensures (|ErrorLines(rs)| == 0) <==> forall k :: 0 <= k < |rs| ==> rs[k].success
  {
    AllSucceededIff(rs);
  }
}
