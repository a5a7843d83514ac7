/**
 * Scanning the working tree and detecting changes
 * (src/project/root/path_processing.rs).
 */
module PathProcessing {
  import opened Errors
  import opened Paths
  import opened RootPaths
  import opened Commits
  import opened Staging
  import opened Heads

  // ---------------------------------------------------------------------------
  // scan_folder

  /** The entries directly inside `dir`. */
  function Children(fs: WorkTree, dir: Path): set<Path> {
    set p | p in fs.Keys && |p| == |dir| + 1 && p[..|dir|] == dir
  }

  /** Every entry strictly below `dir`: what a scan of `dir` may still visit. */
  function Below(fs: WorkTree, dir: Path): set<Path> {
    set p | p in fs.Keys && |p| > |dir| && p[..|dir|] == dir
  }

  /** A child has strictly less below it than its parent, so the recursive scan terminates. */
  lemma {:induction false} ChildBelow(fs: WorkTree, dir: Path, c: Path)
    requires c in Children(fs, dir)
    ensures Below(fs, c) < Below(fs, dir)
  {
    assert c in Below(fs, dir) && c !in Below(fs, c);
    forall p | p in Below(fs, c) ensures p in Below(fs, dir) {
      assert p[..|dir|] == p[..|c|][..|dir|];
    }
  }

  /**
   * `f` is reported by `scan_folder(dir)`: an entry strictly below `dir`
   * that is not a directory, reached through directories only, and not
   * inside the root's `.gust` directory (the scan returns nothing for that
   * directory, `dir` itself included).
   */
  predicate Scanned(fs: WorkTree, root: Path, dir: Path, f: Path) {
    && f in fs && fs[f] != Directory
    && |f| > |dir| && f[..|dir|] == dir
    && (forall k :: |dir| < k < |f| ==> IsDir(fs, f[..k]))
    && (forall k :: |dir| <= k < |f| ==> f[..k] != GustDir(root))
  }

  /** How the scan of a directory reaches `f` through its child `c`. */
  predicate ViaChild(fs: WorkTree, root: Path, c: Path, f: Path) {
    c in fs && ((fs[c] != Directory && f == c) || (fs[c] == Directory && Scanned(fs, root, c, f)))
  }

  /** The files of a directory are its non-directory children and the files of its child directories. */
  lemma {:induction false} ScannedStep(fs: WorkTree, root: Path, dir: Path, f: Path)
    requires dir != GustDir(root)
    ensures Scanned(fs, root, dir, f) <==>
      |f| > |dir| && f[..|dir| + 1] in Children(fs, dir) && ViaChild(fs, root, f[..|dir| + 1], f)
  {
    if |f| > |dir| {
      var c := f[..|dir| + 1];
      assert c[..|dir|] == f[..|dir|];
      if Scanned(fs, root, dir, f) {
        if |f| > |c| {
          assert IsDir(fs, f[..|c|]);
          assert f[..|c|] == c;
        } else {
          assert f == c;
        }
        assert c in Children(fs, dir);
      }
      if c in Children(fs, dir) && ViaChild(fs, root, c, f) {
        if fs[c] == Directory {
          assert f[..|dir|] == f[..|c|][..|dir|];
          assert f[..|c|] == c;
          forall k | |dir| < k < |f| ensures IsDir(fs, f[..k]) {
            if k == |c| {
              assert f[..k] == c;
            }
          }
          forall k | |dir| <= k < |f| ensures f[..k] != GustDir(root) {
            if k == |dir| {
              assert f[..k] == dir;
            }
          }
        } else {
          assert f == c;
          forall k | |dir| <= k < |f| ensures f[..k] != GustDir(root) {
            assert k == |dir| && f[..k] == dir;
          }
        }
      }
    }
  }

  /**
   * `Root::scan_folder`: every non-directory entry below `dir`, recursing
   * into subdirectories and skipping the root's `.gust`. The source unwraps
   * `read_dir`, so `dir` must be a directory.
   */
  method ScanFolder(fs: WorkTree, root: Path, dir: Path) returns (files: seq<Path>)
    requires IsDir(fs, dir)
    ensures forall f :: f in files <==> Scanned(fs, root, dir, f)
    decreases Below(fs, dir)
  {
    if dir == GustDir(root) {
      forall f ensures !Scanned(fs, root, dir, f) {
        if |f| > |dir| && f[..|dir|] == dir {
          assert f[..|dir|] == GustDir(root);
        }
      }
      return [];
    }
    files := [];
    var todo := Children(fs, dir);
    ghost var done: set<Path> := {};
    while todo != {}
      invariant todo + done == Children(fs, dir) && todo !! done
      invariant forall f :: f in files <==>
        |f| > |dir| && f[..|dir| + 1] in done && ViaChild(fs, root, f[..|dir| + 1], f)
      decreases todo
    {
      var e :| e in todo;
      ghost var before := files;
      var added: seq<Path>;
      if fs[e] == Directory {
        ChildBelow(fs, dir, e);
        added := ScanFolder(fs, root, e);
      } else {
        added := [e];
      }
      files := files + added;
      todo := todo - {e};
      done := done + {e};
      forall f ensures f in files <==>
        |f| > |dir| && f[..|dir| + 1] in done && ViaChild(fs, root, f[..|dir| + 1], f)
      {
        assert f in files <==> f in before || f in added;
        if f in added {
          assert |f| >= |e| && f[..|e|] == e;
        }
        if |f| > |dir| && f[..|dir| + 1] == e && ViaChild(fs, root, e, f) {
          assert f in added;
        }
      }
    }
    forall f ensures f in files <==> Scanned(fs, root, dir, f) {
      ScannedStep(fs, root, dir, f);
    }
  }

  // ---------------------------------------------------------------------------
  // get_changed_files

  /** The root-relative paths of every file the scan of the root reports. */
  function ScanRel(fs: WorkTree, root: Path): set<Path> {
    set f | f in fs.Keys && Scanned(fs, root, root, f) :: f[|root|..]
  }

  /** A root-relative path is in `ScanRel` exactly when the scan of the root reports it under the root. */
  lemma {:induction false} ScanRelMember(fs: WorkTree, root: Path, p: Path)
    ensures p in ScanRel(fs, root) <==> Scanned(fs, root, root, root + p)
  {
    if Scanned(fs, root, root, root + p) {
      assert (root + p)[|root|..] == p;
    }
    if p in ScanRel(fs, root) {
      var f :| f in fs.Keys && Scanned(fs, root, root, f) && f[|root|..] == p;
      assert f == root + p;
    }
  }

  /** Every reported path exists in the working tree. */
  lemma {:induction false} ScanRelExists(fs: WorkTree, root: Path)
    ensures forall p :: p in ScanRel(fs, root) ==> Exists(fs, root + p)
  {
    forall p | p in ScanRel(fs, root) ensures Exists(fs, root + p) {
      ScanRelMember(fs, root, p);
    }
  }

  /**
   * What `get_changed_files` reports for a scanned file: `Added` when there
   * is no head commit, otherwise what `hasFileChanged` (`Commit::has_file_changed`,
   * not part of this model) says, with an unchanged file left out.
   */
  function Classify(tree: Option<Tree>, rel: Path, hasFileChanged: (Tree, Path) -> Result<FileStatus>): Option<ChangeType> {
    if tree.None? then Some(ChangeType.Added)
    else
      var status := hasFileChanged(tree.value, rel);
      if status.Err? || status.value == FileStatus.Unchanged then None
      else if status.value == FileStatus.Added then Some(ChangeType.Added)
      else Some(ChangeType.Modified)
  }

  /** Whether every check of a scanned file against the head commit succeeds. */
  predicate ChecksSucceed(fs: WorkTree, root: Path, tree: Option<Tree>, hasFileChanged: (Tree, Path) -> Result<FileStatus>) {
    tree.None? || forall p :: p in ScanRel(fs, root) ==> hasFileChanged(tree.value, p).Ok?
  }

  /** The changes found by the scan. */
  function Found(fs: WorkTree, root: Path, tree: Option<Tree>, hasFileChanged: (Tree, Path) -> Result<FileStatus>): map<Path, ChangeType> {
    map p | p in ScanRel(fs, root) && Classify(tree, p, hasFileChanged).Some? :: Classify(tree, p, hasFileChanged).value
  }

  /** The files of the head commit that no longer exist. */
  function Removals(fs: WorkTree, root: Path, tree: Tree): map<Path, ChangeType> {
    map p | p in tree && !Exists(fs, root + p) :: ChangeType.Removed
  }

  /** The result of `get_changed_files` for a given head commit. */
  function ChangedFiles(fs: WorkTree, root: Path, tree: Option<Tree>, hasFileChanged: (Tree, Path) -> Result<FileStatus>)
    : map<Path, ChangeType>
  {
    var found := Found(fs, root, tree, hasFileChanged);
    if tree.None? then found else found + Removals(fs, root, tree.value)
  }

  /**
   * What `get_changed_files` reports: with no head commit every scanned file
   * as added; otherwise each scanned file the commit check calls added or
   * modified, with that kind, and exactly the files of the commit that no
   * longer exist as removed; nothing else.
   */
  lemma {:induction false} ChangedFilesReport(fs: WorkTree, root: Path, tree: Option<Tree>, hasFileChanged: (Tree, Path) -> Result<FileStatus>)
    ensures var changed := ChangedFiles(fs, root, tree, hasFileChanged);
      && (tree.None? ==> forall p :: p in changed <==> p in ScanRel(fs, root))
      && (tree.None? ==> forall p :: p in changed ==> changed[p] == ChangeType.Added)
      && (tree.Some? ==> forall p :: p in ScanRel(fs, root) ==>
            (p in changed <==> hasFileChanged(tree.value, p) in {Ok(FileStatus.Added), Ok(FileStatus.Modified)}))
      && (tree.Some? ==> forall p :: p in ScanRel(fs, root) && hasFileChanged(tree.value, p) == Ok(FileStatus.Added) ==>
            changed[p] == ChangeType.Added)
      && (tree.Some? ==> forall p :: p in ScanRel(fs, root) && hasFileChanged(tree.value, p) == Ok(FileStatus.Modified) ==>
            changed[p] == ChangeType.Modified)
      && (forall p :: p in changed && changed[p] == ChangeType.Removed <==>
            tree.Some? && p in tree.value && !Exists(fs, root + p))
      && (forall p :: p in changed ==> p in ScanRel(fs, root) || (tree.Some? && p in tree.value))
  {
    ScanRelExists(fs, root);
  }

  /** With no commit on the head, every scanned file is reported as added. */
  lemma {:induction false} NoCommitAllAdded(fs: WorkTree, root: Path, hasFileChanged: (Tree, Path) -> Result<FileStatus>)
    ensures ChangedFiles(fs, root, None, hasFileChanged) == map p | p in ScanRel(fs, root) :: ChangeType.Added
  {
    var changed := ChangedFiles(fs, root, None, hasFileChanged);
    var all := map p | p in ScanRel(fs, root) :: ChangeType.Added;
    assert changed.Keys == all.Keys;
  }

  /** The commit the head points at, if any (`Commit::from_commit_ref_option` of the head's tip). */
  function HeadCommit(head: Head, loadCommit: CommitRef -> Result<Tree>): Result<Option<Tree>>
    requires head.Attached?
    reads head.branch
  {
    CommitOfTip(GetTree(head), loadCommit)
  }

  /**
   * The first loop of `get_changed_files`: classifies the scanned files, in
   * order, failing at the first file that cannot be checked.
   */
  method ClassifyAll(rels: seq<Path>, tree: Option<Tree>, hasFileChanged: (Tree, Path) -> Result<FileStatus>)
    returns (r: Result<map<Path, ChangeType>>)
    ensures r.Ok? <==> (tree.None? || forall k :: 0 <= k < |rels| ==> hasFileChanged(tree.value, rels[k]).Ok?)
    ensures r.Ok? ==> forall p :: p in r.value <==> p in rels && Classify(tree, p, hasFileChanged).Some?
    ensures r.Ok? ==> forall p :: p in r.value ==> r.value[p] == Classify(tree, p, hasFileChanged).value
  {
    var changed: map<Path, ChangeType> := map[];
    var i := 0;
    while i < |rels|
      invariant 0 <= i <= |rels|
      invariant forall p :: p in changed <==> p in rels[..i] && Classify(tree, p, hasFileChanged).Some?
      invariant forall p :: p in changed ==> changed[p] == Classify(tree, p, hasFileChanged).value
      invariant tree.Some? ==> forall k :: 0 <= k < i ==> hasFileChanged(tree.value, rels[k]).Ok?
    {
      var rel := rels[i];
      assert rels[..i + 1] == rels[..i] + [rel];
      if tree.Some? {
        var status := hasFileChanged(tree.value, rel);
        if status.Err? {
          return Err(status.error);
        }
        if status.value != FileStatus.Unchanged {
          changed := changed[rel := if status.value == FileStatus.Added then ChangeType.Added else ChangeType.Modified];
        }
      } else {
        changed := changed[rel := ChangeType.Added];
      }
      i := i + 1;
    }
    assert rels[..i] == rels;
    return Ok(changed);
  }

  /** Updating a merge of two maps is updating the map merged on top. */
  lemma UpdateOverUnion(a: map<Path, ChangeType>, b: map<Path, ChangeType>, k: Path, v: ChangeType)
    ensures (a + b)[k := v] == a + b[k := v]
  {
  }

  /** The second loop of `get_changed_files`: every file of the commit that no longer exists is marked removed. */
  method AddRemovals(changed: map<Path, ChangeType>, fs: WorkTree, root: Path, tree: Tree)
    returns (result: map<Path, ChangeType>)
    ensures result == changed + Removals(fs, root, tree)
  {
    result := changed;
    ghost var removed: map<Path, ChangeType> := map[];
    var todo := tree.Keys;
    while todo != {}
      invariant todo <= tree.Keys
      invariant forall q :: q in removed <==> q in tree && q !in todo && !Exists(fs, root + q)
      invariant forall q :: q in removed ==> removed[q] == ChangeType.Removed
      invariant result == changed + removed
      decreases todo
    {
      var p :| p in todo;
      if !Exists(fs, root + p) {
        UpdateOverUnion(changed, removed, p, ChangeType.Removed);
        result := result[p := ChangeType.Removed];
        removed := removed[p := ChangeType.Removed];
      }
      todo := todo - {p};
    }
    assert removed == Removals(fs, root, tree);
  }

  /** The root-relative forms of the files a scan of the root returned. */
  method RelativeFiles(fs: WorkTree, root: Path, files: seq<Path>) returns (rels: seq<Path>)
    requires forall f :: f in files <==> Scanned(fs, root, root, f)
    ensures |rels| == |files|
    ensures forall p :: p in rels <==> p in ScanRel(fs, root)
  {
    forall f | f in files ensures |root| <= |f| && root + f[|root|..] == f {
      assert Scanned(fs, root, root, f);
    }
    rels := seq(|files|, k requires 0 <= k < |files| => files[k][|root|..]);
    forall p ensures p in rels <==> p in ScanRel(fs, root) {
      ScanRelMember(fs, root, p);
      if p in rels {
        var k :| 0 <= k < |rels| && rels[k] == p;
        assert files[k] == root + p;
      }
      if p in ScanRel(fs, root) {
        assert root + p in files;
        var k :| 0 <= k < |files| && files[k] == root + p;
        assert rels[k] == p;
      }
    }
  }

  /**
   * `Root::get_changed_files`: scans the root, classifies each file against
   * the head commit, then reports the files of that commit that no longer
   * exist as removed. It fails when the head commit cannot be loaded or a
   * file cannot be checked.
   */
  method GetChangedFiles(fs: WorkTree, root: Path, head: Head, loadCommit: CommitRef -> Result<Tree>,
                         hasFileChanged: (Tree, Path) -> Result<FileStatus>)
    returns (r: Result<map<Path, ChangeType>>)
    requires head.Attached? && IsDir(fs, root)
    ensures r.Ok? <==>
      (HeadCommit(head, loadCommit).Ok? && ChecksSucceed(fs, root, HeadCommit(head, loadCommit).value, hasFileChanged))
    ensures r.Ok? ==> r.value == ChangedFiles(fs, root, HeadCommit(head, loadCommit).value, hasFileChanged)
  {
    var files := ScanFolder(fs, root, root);
    var commit := CommitOfTip(GetTree(head), loadCommit);
    if commit.Err? {
      return Err(commit.error);
    }
    var tree := commit.value;
    var rels := RelativeFiles(fs, root, files);
    var found := ClassifyAll(rels, tree, hasFileChanged);
    if found.Err? {
      assert !ChecksSucceed(fs, root, tree, hasFileChanged) by {
        var k :| 0 <= k < |rels| && !hasFileChanged(tree.value, rels[k]).Ok?;
        assert rels[k] in ScanRel(fs, root);
      }
      return Err(found.error);
    }
    assert ChecksSucceed(fs, root, tree, hasFileChanged) by {
      forall p | p in ScanRel(fs, root) && tree.Some? ensures hasFileChanged(tree.value, p).Ok? {
        assert p in rels;
      }
    }
    var changed := found.value;
    assert changed == Found(fs, root, tree, hasFileChanged);
    if tree.Some? {
      changed := AddRemovals(changed, fs, root, tree.value);
    }
    return Ok(changed);
  }

  // ---------------------------------------------------------------------------
  // process_path_list

  /**
   * The files one command-line path of `process_path_list` stands for: the
   * path must exist and lie inside the root; a directory stands for the
   * files its scan reports, anything else for itself.
   */
  function Resolve(cwd: Path, root: Path, fs: WorkTree, cli: CliPath): Result<set<Path>>
  {
    var abs := AbsoluteFromCli(cwd, cli, fs);
    if abs.Err? then Err(abs.error)
    else if !IsInsideRoot(root, abs.value) then Err(User("Path " + Render(abs.value) + " is not a root path"))
    else if IsDir(fs, abs.value) then Ok(set f | f in fs.Keys && Scanned(fs, root, abs.value, f))
    else Ok({abs.value})
  }

  /**
   * A command-line path resolves exactly when it exists and lies inside the
   * root, and is otherwise a user error. The files it stands for lie inside
   * the root and exist: for a directory, exactly the files its scan reports;
   * otherwise the path itself.
   */
  lemma {:induction false} ResolveSpec(cwd: Path, root: Path, fs: WorkTree, cli: CliPath)
    ensures Resolve(cwd, root, fs, cli).Ok? <==>
      Exists(fs, Join(cwd, cli)) && IsInsideRoot(root, Join(cwd, cli))
    ensures Resolve(cwd, root, fs, cli).Err? ==> Resolve(cwd, root, fs, cli).error.User?
    ensures Resolve(cwd, root, fs, cli).Ok? ==>
      forall f :: f in Resolve(cwd, root, fs, cli).value ==> IsInsideRoot(root, f) && Exists(fs, f)
    ensures Resolve(cwd, root, fs, cli).Ok? && IsDir(fs, Join(cwd, cli)) ==>
      forall f :: f in Resolve(cwd, root, fs, cli).value <==> Scanned(fs, root, Join(cwd, cli), f)
    ensures Resolve(cwd, root, fs, cli).Ok? && !IsDir(fs, Join(cwd, cli)) ==>
      Resolve(cwd, root, fs, cli).value == {Join(cwd, cli)}
  {
    var d := Join(cwd, cli);
    if Exists(fs, d) && IsInsideRoot(root, d) && IsDir(fs, d) {
      assert forall f :: Scanned(fs, root, d, f) ==> f[..|root|] == f[..|d|][..|root|];
    }
  }

  /** One step of `Root::process_path_list`: the files `apply` is called on for one path, in scan order. */
  method ResolvePath(cwd: Path, root: Path, fs: WorkTree, cli: CliPath) returns (r: Result<seq<Path>>)
    ensures r.Ok? <==> Resolve(cwd, root, fs, cli).Ok?
    ensures r.Err? ==> r == Err(Resolve(cwd, root, fs, cli).error)
    ensures r.Ok? ==> forall f :: f in r.value <==> f in Resolve(cwd, root, fs, cli).value
    ensures r.Ok? ==> forall f :: f in r.value ==> IsInsideRoot(root, f)
  {
    var abs := AbsoluteFromCli(cwd, cli, fs);
    if abs.Err? {
      return Err(abs.error);
    }
    if !IsInsideRoot(root, abs.value) {
      return Err(User("Path " + Render(abs.value) + " is not a root path"));
    }
    ResolveSpec(cwd, root, fs, cli);
    if IsDir(fs, abs.value) {
      var files := ScanFolder(fs, root, abs.value);
      return Ok(files);
    }
    return Ok([abs.value]);
  }
}
