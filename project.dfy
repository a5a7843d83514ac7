/** The mode argument of `checkout` (src/project/root/checkout.rs). */
module CheckoutModes {
  datatype CheckoutMode = Branch | Commit
}

/**
 * The engine facade (src/project/root.rs and the `impl Root` blocks of
 * src/project/root/): one opened project, its head, staging area, ignore
 * list and branch directory, and the commands run against them.
 */
module Project {
  import opened Errors
  import opened Paths
  import opened RootPaths
  import opened Commits
  import opened Staging
  import opened Branches
  import opened Heads
  import opened Ignore
  import opened PathProcessing
  import CM = CheckoutModes

  /** One section printed by `status`: "No changes", or the changes it lists. */
  datatype Section = NoChanges | Changes(entries: map<Path, ChangeType>)

  /** The section printed for a set of changes. */
  function SectionOf(m: map<Path, ChangeType>): (s: Section)
    ensures s.NoChanges? <==> m == map[]
    ensures s.Changes? ==> s.entries == m
  {
    if m == map[] then NoChanges else Changes(m)
  }

  /** The changed files `status` lists as unstaged: those the staging area does not hold. */
  function Unstaged(changed: map<Path, ChangeType>, staged: map<Path, ChangeType>): map<Path, ChangeType> {
    map p | p in changed && p !in staged :: changed[p]
  }

  /** `status` partitions the changes: every change is listed in exactly one of the two sections. */
  lemma {:induction false} StatusPartition(changed: map<Path, ChangeType>, staged: map<Path, ChangeType>, p: Path)
    ensures !(p in staged && p in Unstaged(changed, staged))
    ensures p in changed ==> p in staged || (p in Unstaged(changed, staged) && Unstaged(changed, staged)[p] == changed[p])
    ensures p in Unstaged(changed, staged) ==> p in changed
  {
  }

  /** The command-line path `cli` exists and is the file itself or a directory above it. */
  predicate Covers(cwd: Path, fs: WorkTree, cli: CliPath, file: Path) {
    Exists(fs, Join(cwd, cli)) && StartsWith(file, Join(cwd, cli))
  }

  /** Some command-line path covers `file`. */
  predicate CoveredBy(cwd: Path, fs: WorkTree, paths: seq<CliPath>, file: Path) {
    paths != [] && (CoveredBy(cwd, fs, paths[..|paths| - 1], file) || Covers(cwd, fs, paths[|paths| - 1], file))
  }

  /** Every command-line path exists. */
  predicate AllExist(cwd: Path, fs: WorkTree, paths: seq<CliPath>) {
    paths == [] || (AllExist(cwd, fs, paths[..|paths| - 1]) && Exists(fs, Join(cwd, paths[|paths| - 1])))
  }

  /** The changes among `keys` that `add` stages: those some command-line path covers. */
  function SelectedAmong(root: Path, cwd: Path, fs: WorkTree, changed: map<Path, ChangeType>, paths: seq<CliPath>, keys: set<Path>)
    : map<Path, ChangeType>
  {
    map p | p in changed && p in keys && CoveredBy(cwd, fs, paths, root + p) :: changed[p]
  }

  /** The changes `add` stages. */
  function Selected(root: Path, cwd: Path, fs: WorkTree, changed: map<Path, ChangeType>, paths: seq<CliPath>)
    : map<Path, ChangeType>
  {
    SelectedAmong(root, cwd, fs, changed, paths, changed.Keys)
  }

  /** A file one of the command-line paths covers is covered. */
  lemma {:induction false} CoveredByWitness(cwd: Path, fs: WorkTree, paths: seq<CliPath>, j: nat, file: Path)
    requires j < |paths| && Covers(cwd, fs, paths[j], file)
    ensures CoveredBy(cwd, fs, paths, file)
    decreases |paths|
  {
    var n := |paths| - 1;
    if j < n {
      var init := paths[..n];
      assert init[j] == paths[j];
      CoveredByWitness(cwd, fs, init, j, file);
      assert CoveredBy(cwd, fs, paths[..|paths| - 1], file);
    } else {
      assert j == |paths| - 1;
    }
  }

  /** A covered file is one that one of the command-line paths covers. */
  lemma {:induction false} CoveredBySome(cwd: Path, fs: WorkTree, paths: seq<CliPath>, file: Path)
    requires CoveredBy(cwd, fs, paths, file)
    ensures exists i :: 0 <= i < |paths| && Covers(cwd, fs, paths[i], file)
  {
    var n := |paths| - 1;
    var init := paths[..n];
    if CoveredBy(cwd, fs, init, file) {
      CoveredBySome(cwd, fs, init, file);
      var j :| 0 <= j < |init| && Covers(cwd, fs, init[j], file);
      assert paths[j] == init[j];
    } else {
      assert Covers(cwd, fs, paths[n], file);
    }
  }

  /**
   * `add` selects exactly the changed files that some command-line path
   * names or lies above, with the kind of change detected for them.
   */
  lemma {:induction false} SelectedSpec(root: Path, cwd: Path, fs: WorkTree, changed: map<Path, ChangeType>, paths: seq<CliPath>, p: Path)
    ensures p in Selected(root, cwd, fs, changed, paths) ==>
      p in changed && Selected(root, cwd, fs, changed, paths)[p] == changed[p]
    ensures p in changed ==> (p in Selected(root, cwd, fs, changed, paths) <==>
      exists i :: 0 <= i < |paths| && Covers(cwd, fs, paths[i], root + p))
  {
    if p in changed {
      if CoveredBy(cwd, fs, paths, root + p) {
        CoveredBySome(cwd, fs, paths, root + p);
      }
      if exists i :: 0 <= i < |paths| && Covers(cwd, fs, paths[i], root + p) {
        var j :| 0 <= j < |paths| && Covers(cwd, fs, paths[j], root + p);
        CoveredByWitness(cwd, fs, paths, j, root + p);
      }
    }
  }

  /**
   * `add .`: the current directory, a command-line path with no normal
   * component, selects every change at or below it.
   */
  lemma {:induction false} AddCurrentDir(root: Path, cwd: Path, fs: WorkTree, changed: map<Path, ChangeType>, p: Path)
    requires Exists(fs, cwd)
    ensures p in Selected(root, cwd, fs, changed, [CliPath(false, [])]) <==> p in changed && StartsWith(root + p, cwd)
  {
    var dot := CliPath(false, []);
    assert Join(cwd, dot) == cwd;
    assert [dot][..0] == [];
    assert CoveredBy(cwd, fs, [dot], root + p) <==> Covers(cwd, fs, dot, root + p);
  }

  /** A file a prefix of the command-line paths covers, all of them cover; a prefix of paths that all exist exist. */
  lemma {:induction false} AddPrefix(cwd: Path, fs: WorkTree, paths: seq<CliPath>, n: nat, file: Path)
    requires n <= |paths|
    ensures CoveredBy(cwd, fs, paths[..n], file) ==> CoveredBy(cwd, fs, paths, file)
    ensures AllExist(cwd, fs, paths) ==> AllExist(cwd, fs, paths[..n])
    decreases |paths|
  {
    if n < |paths| {
      var init := paths[..|paths| - 1];
      assert init[..n] == paths[..n];
      AddPrefix(cwd, fs, init, n, file);
    } else {
      assert paths[..n] == paths;
    }
  }

  /** One more command-line path: the file is covered by it or by the earlier ones, and it must exist too. */
  lemma AddStep(cwd: Path, fs: WorkTree, paths: seq<CliPath>, i: nat, file: Path)
    requires i < |paths|
    ensures CoveredBy(cwd, fs, paths[..i + 1], file) <==> CoveredBy(cwd, fs, paths[..i], file) || Covers(cwd, fs, paths[i], file)
    ensures AllExist(cwd, fs, paths[..i + 1]) <==> AllExist(cwd, fs, paths[..i]) && Exists(fs, Join(cwd, paths[i]))
  {
    assert paths[..i + 1][..i] == paths[..i];
    assert paths[..i + 1][i] == paths[i];
  }

  /** Examining one more changed file adds it to the selection exactly when a command-line path covers it. */
  lemma {:induction false} SelectedAmongStep(root: Path, cwd: Path, fs: WorkTree, changed: map<Path, ChangeType>, paths: seq<CliPath>,
                          keys: set<Path>, file: Path)
    requires file in changed
    ensures SelectedAmong(root, cwd, fs, changed, paths, keys + {file}) ==
      if CoveredBy(cwd, fs, paths, root + file) then SelectedAmong(root, cwd, fs, changed, paths, keys)[file := changed[file]]
      else SelectedAmong(root, cwd, fs, changed, paths, keys)
  {
  }

  /** The command-line path `cli` resolves to a set of files holding `root + p`. */
  predicate Hits(cwd: Path, root: Path, fs: WorkTree, cli: CliPath, p: Path) {
    Resolve(cwd, root, fs, cli).Ok? && root + p in Resolve(cwd, root, fs, cli).value
  }

  /** A path `remove` unstages: the root-relative form of a file some command-line path resolves to. */
  predicate Unstages(cwd: Path, root: Path, fs: WorkTree, paths: seq<CliPath>, p: Path) {
    paths != [] && (Unstages(cwd, root, fs, paths[..|paths| - 1], p) || Hits(cwd, root, fs, paths[|paths| - 1], p))
  }

  /** Every command-line path resolves. */
  predicate AllResolve(cwd: Path, root: Path, fs: WorkTree, paths: seq<CliPath>) {
    paths == [] || (AllResolve(cwd, root, fs, paths[..|paths| - 1]) && Resolve(cwd, root, fs, paths[|paths| - 1]).Ok?)
  }

  /** The command-line path `cli` resolves to at least one file. */
  predicate HasTarget(cwd: Path, root: Path, fs: WorkTree, cli: CliPath) {
    Resolve(cwd, root, fs, cli).Ok? && Resolve(cwd, root, fs, cli).value != {}
  }

  /** Some command-line path resolves to at least one file. */
  predicate SomeTarget(cwd: Path, root: Path, fs: WorkTree, paths: seq<CliPath>) {
    paths != [] && (SomeTarget(cwd, root, fs, paths[..|paths| - 1]) || HasTarget(cwd, root, fs, paths[|paths| - 1]))
  }

  /** A path one of the command-line paths resolves to is unstaged. */
  lemma {:induction false} UnstagesWitness(cwd: Path, root: Path, fs: WorkTree, paths: seq<CliPath>, j: nat, p: Path)
    requires j < |paths| && Hits(cwd, root, fs, paths[j], p)
    ensures Unstages(cwd, root, fs, paths, p)
  {
    var n := |paths| - 1;
    if j < n {
      var init := paths[..n];
      assert init[j] == paths[j];
      UnstagesWitness(cwd, root, fs, init, j, p);
      assert Unstages(cwd, root, fs, init, p);
    } else {
      assert j == n;
    }
  }

  /** An unstaged path is one that one of the command-line paths resolves to. */
  lemma {:induction false} UnstagesSome(cwd: Path, root: Path, fs: WorkTree, paths: seq<CliPath>, p: Path)
    requires Unstages(cwd, root, fs, paths, p)
    ensures exists i :: 0 <= i < |paths| && Hits(cwd, root, fs, paths[i], p)
  {
    var n := |paths| - 1;
    var init := paths[..n];
    if Unstages(cwd, root, fs, init, p) {
      UnstagesSome(cwd, root, fs, init, p);
      var j :| 0 <= j < |init| && Hits(cwd, root, fs, init[j], p);
      assert paths[j] == init[j];
    } else {
      assert Hits(cwd, root, fs, paths[n], p);
    }
  }

  /** When all command-line paths resolve, each of them does. */
  lemma {:induction false} AllResolveAt(cwd: Path, root: Path, fs: WorkTree, paths: seq<CliPath>, j: nat)
    requires AllResolve(cwd, root, fs, paths) && j < |paths|
    ensures Resolve(cwd, root, fs, paths[j]).Ok?
  {
    var n := |paths| - 1;
    if j < n {
      var init := paths[..n];
      assert init[j] == paths[j];
      assert AllResolve(cwd, root, fs, init);
      AllResolveAt(cwd, root, fs, init, j);
    } else {
      assert j == n;
    }
  }

  /** When each command-line path resolves, all of them do. */
  lemma {:induction false} AllResolveFrom(cwd: Path, root: Path, fs: WorkTree, paths: seq<CliPath>)
    requires forall i :: 0 <= i < |paths| ==> Resolve(cwd, root, fs, paths[i]).Ok?
    ensures AllResolve(cwd, root, fs, paths)
  {
    if paths != [] {
      var init := paths[..|paths| - 1];
      assert forall i :: 0 <= i < |init| ==> init[i] == paths[i];
      AllResolveFrom(cwd, root, fs, init);
    }
  }

  /** One more command-line path: it must resolve too, and it may be the first with a file. */
  lemma RemoveStep(cwd: Path, root: Path, fs: WorkTree, paths: seq<CliPath>, i: nat)
    requires i < |paths|
    ensures AllResolve(cwd, root, fs, paths[..i + 1]) <==>
      AllResolve(cwd, root, fs, paths[..i]) && Resolve(cwd, root, fs, paths[i]).Ok?
    ensures SomeTarget(cwd, root, fs, paths[..i + 1]) <==>
      SomeTarget(cwd, root, fs, paths[..i]) || HasTarget(cwd, root, fs, paths[i])
  {
    assert paths[..i + 1][..i] == paths[..i];
    assert paths[..i + 1][i] == paths[i];
  }

  /** One more command-line path: a path is unstaged by it or by the earlier ones. */
  lemma UnstagesStep(cwd: Path, root: Path, fs: WorkTree, paths: seq<CliPath>, i: nat, p: Path)
    requires i < |paths|
    ensures Unstages(cwd, root, fs, paths[..i + 1], p) <==>
      Unstages(cwd, root, fs, paths[..i], p) || Hits(cwd, root, fs, paths[i], p)
  {
    assert paths[..i + 1][..i] == paths[..i];
    assert paths[..i + 1][i] == paths[i];
  }

  /** `UnstagesStep` for every path at once. */
  lemma {:induction false} UnstagesStepAll(cwd: Path, root: Path, fs: WorkTree, paths: seq<CliPath>, i: nat)
    requires i < |paths|
    ensures forall p :: Unstages(cwd, root, fs, paths[..i + 1], p) <==>
      Unstages(cwd, root, fs, paths[..i], p) || Hits(cwd, root, fs, paths[i], p)
  {
    forall p ensures Unstages(cwd, root, fs, paths[..i + 1], p) <==>
      Unstages(cwd, root, fs, paths[..i], p) || Hits(cwd, root, fs, paths[i], p)
    {
      UnstagesStep(cwd, root, fs, paths, i, p);
    }
  }

  /** What a prefix of the command-line paths unstages, all of them unstage, for every path at once. */
  lemma {:induction false} UnstagesPrefixAll(cwd: Path, root: Path, fs: WorkTree, paths: seq<CliPath>, n: nat)
    requires n <= |paths|
    ensures forall p :: Unstages(cwd, root, fs, paths[..n], p) ==> Unstages(cwd, root, fs, paths, p)
  {
    forall p ensures Unstages(cwd, root, fs, paths[..n], p) ==> Unstages(cwd, root, fs, paths, p) {
      RemovePrefix(cwd, root, fs, paths, n, p);
    }
  }

  /** What a prefix of the command-line paths unstages or targets, all of them do. */
  lemma {:induction false} RemovePrefix(cwd: Path, root: Path, fs: WorkTree, paths: seq<CliPath>, n: nat, p: Path)
    requires n <= |paths|
    ensures Unstages(cwd, root, fs, paths[..n], p) ==> Unstages(cwd, root, fs, paths, p)
    ensures SomeTarget(cwd, root, fs, paths[..n]) ==> SomeTarget(cwd, root, fs, paths)
    ensures AllResolve(cwd, root, fs, paths) ==> AllResolve(cwd, root, fs, paths[..n])
    decreases |paths|
  {
    if n < |paths| {
      var init := paths[..|paths| - 1];
      assert init[..n] == paths[..n];
      RemovePrefix(cwd, root, fs, init, n, p);
    } else {
      assert paths[..n] == paths;
    }
  }

  /** The branch names `display_branches` lists above the current one: every stored branch but the current. */
  function OtherNames(names: set<string>, root: Path, current: string): set<string> {
    set n | n in names && Branches.StorePath(root, n) != Branches.StorePath(root, current)
  }

  /** For names without separators, the other names are all names but the current one. */
  lemma {:induction false} OtherNamesExcludeCurrent(names: set<string>, root: Path, current: string)
    requires '/' !in current && forall n :: n in names ==> '/' !in n
    ensures OtherNames(names, root, current) == names - {current}
  {
    forall n | n in names ensures n in OtherNames(names, root, current) <==> n != current {
      StorePathInjective(root, n, current);
    }
  }

  /**
   * The unstaged half of `status`: the changes the staging area does not
   * hold, and whether there is any (`unstaged_file_exists`).
   */
  method UnstagedEntries(changed: map<Path, ChangeType>, staged: map<Path, ChangeType>)
    returns (entries: map<Path, ChangeType>, unstagedFileExists: bool)
    ensures entries == Unstaged(changed, staged)
    ensures unstagedFileExists <==> entries != map[]
  {
    entries := map[];
    unstagedFileExists := false;
    var todo := changed.Keys;
    while todo != {}
      invariant todo <= changed.Keys
      invariant forall p :: p in entries <==> p in changed && p !in todo && p !in staged
      invariant forall p :: p in entries ==> entries[p] == changed[p]
      invariant unstagedFileExists <==> entries != map[]
      decreases todo
    {
      var file :| file in todo;
      if file !in staged {
        entries := entries[file := changed[file]];
        unstagedFileExists := true;
      }
      todo := todo - {file};
    }
    assert entries.Keys == Unstaged(changed, staged).Keys;
  }

  /**
   * The loop of `display_branches` over the branch directory: a line
   * `  <name>` for every branch not stored where the current one is, each
   * listed once.
   */
  method ListOthers(names: set<string>, root: Path, current: string) returns (lines: seq<string>)
    ensures forall i :: 0 <= i < |lines| ==>
      |lines[i]| >= 2 && lines[i][..2] == "  " && lines[i][2..] in OtherNames(names, root, current)
    ensures forall i, j :: 0 <= i < j < |lines| ==> lines[i] != lines[j]
    ensures forall n :: n in OtherNames(names, root, current) ==> "  " + n in lines
  {
    ghost var others := OtherNames(names, root, current);
    lines := [];
    var todo := names;
    while todo != {}
      invariant todo <= names
      invariant forall i :: 0 <= i < |lines| ==>
        |lines[i]| >= 2 && lines[i][..2] == "  " && lines[i][2..] in others && lines[i][2..] !in todo
      invariant forall i, j :: 0 <= i < j < |lines| ==> lines[i] != lines[j]
      invariant forall n :: n in others && n !in todo ==> "  " + n in lines
      decreases todo
    {
      var entry :| entry in todo;
      if Branches.StorePath(root, entry) != Branches.StorePath(root, current) {
        var line := "  " + entry;
        assert line[..2] == "  " && line[2..] == entry;
        assert forall i :: 0 <= i < |lines| ==> lines[i] != line;
        lines := lines + [line];
      }
      todo := todo - {entry};
    }
  }

  class Root {
    /** The project root (`RootPath`). */
    const path: Path
    /** The directory the command was run from. */
    const cwd: Path
    /** The working tree. */
    const fs: WorkTree
    var head: Head
    const staging: StagingArea
    const ignored: seq<IgnoredFile>
    /** `.gust/branches`. */
    const branches: BranchDir
    /** `.gust/HEAD.json`. */
    const headFile: HeadFile

    /** The head is attached to a branch of this project, and the root is a directory. */
    ghost predicate Valid()
      reads this
    {
      head.Attached? && head.branch.dir == branches && head.branch.root == path && IsDir(fs, path)
    }

    constructor (path: Path, cwd: Path, fs: WorkTree, head: Head, staging: StagingArea, ignored: seq<IgnoredFile>,
                 branches: BranchDir, headFile: HeadFile)
      ensures this.path == path && this.cwd == cwd && this.fs == fs && this.head == head
      ensures this.staging == staging && this.ignored == ignored && this.branches == branches && this.headFile == headFile
    {
      this.path := path;
      this.cwd := cwd;
      this.fs := fs;
      this.head := head;
      this.staging := staging;
      this.ignored := ignored;
      this.branches := branches;
      this.headFile := headFile;
    }

    /** Whether `get_changed_files` succeeds. */
    ghost predicate ChangesOk(loadCommit: CommitRef -> Result<Tree>, hasFileChanged: (Tree, Path) -> Result<FileStatus>)
      requires Valid()
      reads this, head.branch
    {
      HeadCommit(head, loadCommit).Ok? && ChecksSucceed(fs, path, HeadCommit(head, loadCommit).value, hasFileChanged)
    }

    /** The result of `get_changed_files` when it succeeds. */
    ghost function ChangedNow(loadCommit: CommitRef -> Result<Tree>, hasFileChanged: (Tree, Path) -> Result<FileStatus>)
      : map<Path, ChangeType>
      requires Valid() && ChangesOk(loadCommit, hasFileChanged)
      reads this, head.branch
    {
      ChangedFiles(fs, path, HeadCommit(head, loadCommit).value, hasFileChanged)
    }

    // -------------------------------------------------------------------------
    // add

    /**
     * The inner loop of `add` for one changed file: resolves every
     * command-line path in order and stages the file each time one covers it.
     */
    method StageIfCovered(file: Path, change: ChangeType, paths: seq<CliPath>) returns (r: Result<()>)
      modifies staging
      ensures r.Ok? <==> AllExist(cwd, fs, paths) && (!CoveredBy(cwd, fs, paths, path + file) || !staging.saveFails)
      ensures r.Ok? ==>
        staging.files == if CoveredBy(cwd, fs, paths, path + file) then old(staging.files)[file := change] else old(staging.files)
      ensures r.Err? ==> (staging.files == old(staging.files) ||
        (CoveredBy(cwd, fs, paths, path + file) && staging.files == old(staging.files)[file := change]))
      ensures r.Ok? ==> staging.saved == if CoveredBy(cwd, fs, paths, path + file) then staging.files else old(staging.saved)
      ensures staging.saved == old(staging.saved) || staging.saved == staging.files
      ensures !staging.saveFails && staging.files != old(staging.files) ==> staging.saved == staging.files
      ensures staging.saveFails ==> staging.saved == old(staging.saved)
    {
      var absoluteFile := JoinPath(path, file);
      ghost var covered := false;
      var i := 0;
      while i < |paths|
        invariant 0 <= i <= |paths|
        invariant AllExist(cwd, fs, paths[..i])
        invariant covered == CoveredBy(cwd, fs, paths[..i], absoluteFile)
        invariant staging.files == if covered then old(staging.files)[file := change] else old(staging.files)
        invariant covered ==> !staging.saveFails
        invariant staging.saved == if covered then staging.files else old(staging.saved)
      {
        AddStep(cwd, fs, paths, i, absoluteFile);
        var absoluteCli := AbsoluteFromCli(cwd, paths[i], fs);
        if absoluteCli.Err? {
          AddPrefix(cwd, fs, paths, i, absoluteFile);
          AddPrefix(cwd, fs, paths, i + 1, absoluteFile);
          return Err(absoluteCli.error);
        }
        assert Covers(cwd, fs, paths[i], absoluteFile) <==>
          absoluteFile == absoluteCli.value || StartsWith(absoluteFile, absoluteCli.value);
        if absoluteFile == absoluteCli.value || StartsWith(absoluteFile, absoluteCli.value) {
          assert old(staging.files)[file := change][file := change] == old(staging.files)[file := change];
          var inserted := staging.Insert(file, change);
          covered := true;
          if inserted.Err? {
            AddPrefix(cwd, fs, paths, i + 1, absoluteFile);
            return inserted;
          }
        }
        i := i + 1;
      }
      assert paths[..i] == paths;
      return Ok(());
    }

    /**
     * `Root::add`: stages, with its detected kind, every changed file that a
     * command-line path names or lies under. A command-line path that does
     * not exist is an error, detected only while some change is examined.
     */
    method Add(paths: seq<CliPath>, loadCommit: CommitRef -> Result<Tree>, hasFileChanged: (Tree, Path) -> Result<FileStatus>)
      returns (r: Result<()>)
      requires Valid()
      modifies staging
      ensures !ChangesOk(loadCommit, hasFileChanged) ==>
        r.Err? && staging.files == old(staging.files) && staging.saved == old(staging.saved)
      ensures ChangesOk(loadCommit, hasFileChanged) ==>
        StagedSelection(ChangedNow(loadCommit, hasFileChanged), paths, old(staging.files), staging.files,
                        old(staging.saved), staging.saved, r.Ok?)
    {
      var changed := GetChangedFiles(fs, path, head, loadCommit, hasFileChanged);
      if changed.Err? {
        return Err(changed.error);
      }
      r := StageSelected(changed.value, paths);
    }

    /**
     * What `add` does to the staging area once the changes are known: on
     * success, the selected changes are merged over the staged ones; on
     * failure, part of them may be. Success requires every command-line
     * path to exist (checked only when there is a change) and, when
     * something is selected, saving to succeed. Every insertion saves the
     * whole map, so the file ends up holding the final map once anything
     * was staged, and is untouched when nothing was or saving fails.
     */
    ghost predicate StagedSelection(changed: map<Path, ChangeType>, paths: seq<CliPath>,
                                    before: map<Path, ChangeType>, after: map<Path, ChangeType>,
                                    savedBefore: map<Path, ChangeType>, savedAfter: map<Path, ChangeType>, ok: bool)
      reads this, staging
    {
      var sel := Selected(path, cwd, fs, changed, paths);
      && (ok <==> (changed == map[] || AllExist(cwd, fs, paths)) && (sel == map[] || !staging.saveFails))
      && (ok ==> after == before + sel)
      && (forall p :: p in after ==> (p in sel && after[p] == sel[p]) || (p in before && after[p] == before[p]))
      && before.Keys <= after.Keys
      && (ok ==> savedAfter == if sel == map[] then savedBefore else after)
      && (savedAfter == savedBefore || savedAfter == after)
      && (staging.saveFails ==> savedAfter == savedBefore)
    }

    /** The loop of `add` over the changed files. */
    method StageSelected(changed: map<Path, ChangeType>, paths: seq<CliPath>) returns (r: Result<()>)
      modifies staging
      ensures StagedSelection(changed, paths, old(staging.files), staging.files, old(staging.saved), staging.saved, r.Ok?)
    {
      ghost var start := staging.files;
      ghost var sel := Selected(path, cwd, fs, changed, paths);
      ghost var staged: map<Path, ChangeType> := map[];
      var todo := changed.Keys;
      while todo != {}
        invariant todo <= changed.Keys
        invariant staged == SelectedAmong(path, cwd, fs, changed, paths, changed.Keys - todo)
        invariant staging.files == start + staged
        invariant todo != changed.Keys ==> AllExist(cwd, fs, paths)
        invariant staging.saveFails ==> staged == map[]
        invariant staging.saved == if staged == map[] then old(staging.saved) else staging.files
        decreases todo
      {
        var file :| file in todo;
        ghost var covered := CoveredBy(cwd, fs, paths, path + file);
        SelectedAmongStep(path, cwd, fs, changed, paths, changed.Keys - todo, file);
        assert changed.Keys - (todo - {file}) == (changed.Keys - todo) + {file};
        r := StageIfCovered(file, changed[file], paths);
        if r.Err? {
          assert file in sel ==> sel != map[];
          return r;
        }
        if covered {
          UpdateOverUnion(start, staged, file, changed[file]);
          staged := staged[file := changed[file]];
          assert file in staged;
        }
        todo := todo - {file};
      }
      assert changed.Keys - todo == changed.Keys;
      return Ok(());
    }

    // -------------------------------------------------------------------------
    // remove

    /** The closure `remove` hands to `process_path_list`, for every file one path resolved to. */
    method UnstageAll(files: seq<Path>) returns (r: Result<()>)
      requires forall f :: f in files ==> IsInsideRoot(path, f)
      modifies staging
      ensures r.Ok? <==> files == [] || !staging.saveFails
      ensures r.Ok? ==> forall p :: p in staging.files <==> p in old(staging.files) && path + p !in files
      ensures forall p :: p in staging.files ==> p in old(staging.files) && staging.files[p] == old(staging.files)[p]
      ensures forall p :: p in old(staging.files) && path + p !in files ==> p in staging.files
      ensures r.Ok? ==> staging.saved == if files == [] then old(staging.saved) else staging.files
      ensures r.Err? ==> staging.saved == old(staging.saved)
    {
      var i := 0;
      while i < |files|
        invariant 0 <= i <= |files|
        invariant forall p :: p in staging.files <==> p in old(staging.files) && path + p !in files[..i]
        invariant forall p :: p in staging.files ==> staging.files[p] == old(staging.files)[p]
        invariant i > 0 ==> !staging.saveFails
        invariant staging.saved == if i == 0 then old(staging.saved) else staging.files
      {
        assert files[i] in files;
        var relative := RootRelative(files[i], path);
        assert path + relative == files[i];
        assert files[..i + 1] == files[..i] + [files[i]];
        r := staging.Remove(relative);
        if r.Err? {
          forall p | p in old(staging.files) && path + p !in files ensures p in staging.files {
            assert path + p !in files[..i];
            assert p != relative;
          }
          return r;
        }
        i := i + 1;
      }
      assert files[..i] == files;
      return Ok(());
    }

    /**
     * `Root::remove` through `Root::process_path_list`: each command-line
     * path in turn is resolved and its files are unstaged, whether or not
     * they were staged; the first path that does not resolve stops the command.
     */
    method Remove(paths: seq<CliPath>) returns (r: Result<()>)
      modifies staging
      ensures r.Ok? <==> AllResolve(cwd, path, fs, paths) && (!SomeTarget(cwd, path, fs, paths) || !staging.saveFails)
      ensures r.Ok? ==> forall p :: p in staging.files <==> p in old(staging.files) && !Unstages(cwd, path, fs, paths, p)
      ensures forall p :: p in staging.files ==> p in old(staging.files) && staging.files[p] == old(staging.files)[p]
      ensures forall p :: p in old(staging.files) && !Unstages(cwd, path, fs, paths, p) ==> p in staging.files
      ensures r.Ok? ==> staging.saved == if SomeTarget(cwd, path, fs, paths) then staging.files else old(staging.saved)
      ensures staging.saveFails ==> staging.saved == old(staging.saved)
      ensures r.Err? && !staging.saveFails ==>
        exists k :: StoppedAt(paths, k, old(staging.files), staging.files, old(staging.saved), staging.saved)
    {
      var i := 0;
      while i < |paths|
        invariant 0 <= i <= |paths|
        invariant AllResolve(cwd, path, fs, paths[..i])
        invariant staging.saveFails ==> !SomeTarget(cwd, path, fs, paths[..i])
        invariant forall p :: p in staging.files <==> p in old(staging.files) && !Unstages(cwd, path, fs, paths[..i], p)
        invariant forall p :: p in staging.files ==> staging.files[p] == old(staging.files)[p]
        invariant staging.saved == if SomeTarget(cwd, path, fs, paths[..i]) then staging.files else old(staging.saved)
      {
        RemoveStep(cwd, path, fs, paths, i);
        UnstagesStepAll(cwd, path, fs, paths, i);
        r := UnstagePath(paths[i]);
        if r.Err? {
          UnstagesPrefixAll(cwd, path, fs, paths, i + 1);
          RemovePrefix(cwd, path, fs, paths, i, []);
          RemovePrefix(cwd, path, fs, paths, i + 1, []);
          if !staging.saveFails {
            assert StoppedAt(paths, i, old(staging.files), staging.files, old(staging.saved), staging.saved);
          }
          return r;
        }
        i := i + 1;
      }
      assert paths[..i] == paths;
      return Ok(());
    }

    /**
     * `process_path_list` stopped at `paths[k]`, the first command-line path
     * that does not resolve: the files of the paths before it are unstaged
     * (and saved, if there were any), and those of the later paths are not.
     */
    ghost predicate StoppedAt(paths: seq<CliPath>, k: nat,
                              before: map<Path, ChangeType>, after: map<Path, ChangeType>,
                              savedBefore: map<Path, ChangeType>, savedAfter: map<Path, ChangeType>)
      reads this
    {
      && k < |paths|
      && AllResolve(cwd, path, fs, paths[..k])
      && Resolve(cwd, path, fs, paths[k]).Err?
      && (forall p :: p in after <==> p in before && !Unstages(cwd, path, fs, paths[..k], p))
      && savedAfter == (if SomeTarget(cwd, path, fs, paths[..k]) then after else savedBefore)
    }

    /** One step of `process_path_list` in `remove`: resolves `cli` and unstages every file it resolves to. */
    method UnstagePath(cli: CliPath) returns (r: Result<()>)
      modifies staging
      ensures r.Ok? <==> Resolve(cwd, path, fs, cli).Ok? && (!HasTarget(cwd, path, fs, cli) || !staging.saveFails)
      ensures r.Ok? ==> forall p :: p in staging.files <==> p in old(staging.files) && !Hits(cwd, path, fs, cli, p)
      ensures forall p :: p in staging.files ==> p in old(staging.files) && staging.files[p] == old(staging.files)[p]
      ensures forall p :: p in old(staging.files) && !Hits(cwd, path, fs, cli, p) ==> p in staging.files
      ensures Resolve(cwd, path, fs, cli).Err? ==> staging.files == old(staging.files)
      ensures r.Ok? ==> staging.saved == if HasTarget(cwd, path, fs, cli) then staging.files else old(staging.saved)
      ensures r.Err? ==> staging.saved == old(staging.saved)
    {
      var resolved := ResolvePath(cwd, path, fs, cli);
      if resolved.Err? {
        return Err(resolved.error);
      }
      assert HasTarget(cwd, path, fs, cli) <==> resolved.value != [] by {
        if resolved.value != [] {
          assert resolved.value[0] in Resolve(cwd, path, fs, cli).value;
        } else {
          assert Resolve(cwd, path, fs, cli).value == {};
        }
      }
      assert forall p :: Hits(cwd, path, fs, cli, p) <==> path + p in resolved.value;
      r := UnstageAll(resolved.value);
    }

    // -------------------------------------------------------------------------
    // status, commit, info

    /**
     * `Root::status`: the staged section, then the unstaged section; the
     * second one fails when change detection does.
     */
    method Status(loadCommit: CommitRef -> Result<Tree>, hasFileChanged: (Tree, Path) -> Result<FileStatus>)
      returns (staged: Section, unstaged: Result<Section>)
      requires Valid()
      ensures staged == SectionOf(staging.files)
      ensures unstaged.Ok? <==> ChangesOk(loadCommit, hasFileChanged)
      ensures unstaged.Ok? ==> unstaged.value == SectionOf(Unstaged(ChangedNow(loadCommit, hasFileChanged), staging.files))
    {
      if staging.IsEmpty() {
        staged := NoChanges;
      } else {
        staged := Changes(staging.GetFiles());
      }
      var changedR := GetChangedFiles(fs, path, head, loadCommit, hasFileChanged);
      if changedR.Err? {
        return staged, Err(changedR.error);
      }
      var changed := changedR.value;
      var entries, unstagedFileExists := UnstagedEntries(changed, staging.GetFiles());
      if !unstagedFileExists {
        return staged, Ok(NoChanges);
      }
      return staged, Ok(Changes(entries));
    }

    /**
     * `Root::commit`: the new reference (`made`, the outcome of
     * `CommitRef::new`, which is not part of this model) is appended to the
     * head's branch, then the staging area is cleared. If the reference
     * cannot be made nothing changes.
     */
    method Commit(made: Result<CommitRef>) returns (r: Result<()>)
      requires Valid()
      modifies head.branch, branches, staging
      ensures Valid() && head == old(head)
      ensures made.Err? ==> r == Err(made.error) && head.branch.commits == old(head.branch.commits)
      ensures made.Err? ==> branches.logs == old(branches.logs) && staging.files == old(staging.files)
      ensures made.Ok? ==> head.branch.commits == old(head.branch.commits) + [made.value] && GetTree(head) == Some(made.value)
      ensures r.Ok? <==> made.Ok? && head.branch.name !in branches.unwritable && !staging.saveFails
      ensures made.Ok? && head.branch.name !in branches.unwritable ==>
        branches.logs == old(branches.logs)[head.branch.name := head.branch.commits] && staging.files == map[]
      ensures made.Ok? && head.branch.name in branches.unwritable ==>
        branches.logs == old(branches.logs) && staging.files == old(staging.files)
      ensures r.Ok? ==> staging.saved == map[]
      ensures made.Err? || head.branch.name in branches.unwritable || staging.saveFails ==>
        staging.saved == old(staging.saved)
    {
      if made.Err? {
        return Err(made.error);
      }
      r := InsertCommit(head, made.value);
      if r.Err? {
        return r;
      }
      r := staging.Clear();
    }

    /** `Root::info`: the log of the head's branch, newest first, under a title. */
    method Info(show: CommitRef -> string) returns (s: string)
      requires Valid()
      ensures s == "Commit history:\n" + LogText(NewestFirst(head.branch.commits), show)
    {
      var log := head.branch.Display(show);
      s := "Commit history:\n" + log;
    }

    // -------------------------------------------------------------------------
    // branch

    /**
     * `Root::branch`: with a name, creates that branch; without one, lists
     * the branches (the printed lines are returned).
     */
    method BranchCommand(name: Option<string>) returns (r: Result<()>, listing: seq<string>)
      requires Valid()
      modifies branches
      ensures Valid() && head == old(head) && head.branch.commits == old(head.branch.commits)
      ensures name.None? ==> (r.Ok? <==> !branches.listFails) && branches.logs == old(branches.logs)
      ensures name.None? && r.Ok? ==> ListsBranches(listing)
      ensures name.Some? || r.Err? ==> listing == []
      ensures name.Some? && GetTree(head).Some? ==> (r.Ok? <==> name.value !in branches.unwritable)
      ensures name.Some? && GetTree(head).Some? && r.Ok? ==>
        branches.logs == old(branches.logs)[name.value := [GetTree(head).value]]
      ensures name.Some? && GetTree(head).None? ==>
        (r.Ok? <==> name.value !in branches.unreadable && name.value !in branches.unwritable)
      ensures name.Some? && GetTree(head).None? && r.Ok? ==>
        branches.logs == old(branches.logs)[name.value :=
          if name.value in old(branches.logs) then old(branches.logs)[name.value] else []]
      ensures r.Err? ==> branches.logs == old(branches.logs)
    {
      if name.Some? {
        r := CreateBranch(name.value);
        listing := [];
      } else {
        var shown := DisplayBranches();
        if shown.Err? {
          return Err(shown.error), [];
        }
        listing := shown.value;
        r := Ok(());
      }
    }

    /**
     * The lines `display_branches` prints: one per stored branch other than
     * the current one, each indented by two spaces, then the current branch
     * marked `*`.
     */
    ghost predicate ListsBranches(listing: seq<string>)
      reads this, head.branch, branches
      requires Valid()
    {
      && |listing| >= 1
      && listing[|listing| - 1] == "* " + head.branch.name
      && (forall i :: 0 <= i < |listing| - 1 ==>
            |listing[i]| >= 2 && listing[i][..2] == "  " && listing[i][2..] in OtherNames(branches.logs.Keys, path, head.branch.name))
      && (forall i, j :: 0 <= i < j < |listing| - 1 ==> listing[i] != listing[j])
      && (forall n :: n in OtherNames(branches.logs.Keys, path, head.branch.name) ==> "  " + n in listing[..|listing| - 1])
    }

    /**
     * `Root::display_branches`: one line for every stored branch other than
     * the current one (in directory order), then the current branch marked
     * `*`. Listing `.gust/branches` or reading one of its entries may fail.
     */
    method DisplayBranches() returns (r: Result<seq<string>>)
      requires Valid()
      ensures r.Ok? <==> !branches.listFails
      ensures r.Ok? ==> ListsBranches(r.value)
    {
      if branches.listFails {
        return Err(Io("cannot read " + Render(JoinStr(path, ".gust/branches"))));
      }
      var lines := ListOthers(branches.logs.Keys, path, head.branch.name);
      var listing := lines + ["* " + head.branch.name];
      assert listing[..|listing| - 1] == lines;
      return Ok(listing);
    }

    /**
     * `Root::create_branch`: a branch seeded with the head's tip, or, when
     * the head has no commit, the branch as loaded (empty if never saved),
     * is saved under `name`. The head is not switched.
     */
    method CreateBranch(name: string) returns (r: Result<()>)
      requires Valid()
      modifies branches
      ensures Valid() && head == old(head) && head.branch.commits == old(head.branch.commits)
      ensures GetTree(head).Some? ==> (r.Ok? <==> name !in branches.unwritable)
      ensures GetTree(head).Some? && r.Ok? ==> branches.logs == old(branches.logs)[name := [GetTree(head).value]]
      ensures GetTree(head).None? ==> (r.Ok? <==> name !in branches.unreadable && name !in branches.unwritable)
      ensures GetTree(head).None? && r.Ok? ==>
        branches.logs == old(branches.logs)[name := if name in old(branches.logs) then old(branches.logs)[name] else []]
      ensures r.Err? ==> branches.logs == old(branches.logs)
    {
      var tip := GetTree(head);
      var newBranch: Branch;
      if tip.Some? {
        newBranch := new Branch.NewFromCommitRef(tip.value, path, name, branches);
      } else {
        var created := Create(branches, path, name);
        if created.Err? {
          return Err(created.error);
        }
        newBranch := created.value;
      }
      r := newBranch.Save();
    }

    // -------------------------------------------------------------------------
    // checkout

    /**
     * `Root::checkout`: only a checkout of a branch is implemented; the
     * commit mode and the inference of the mode are not.
     */
    method Checkout(mode: Option<CM.CheckoutMode>, name: string) returns (r: Result<()>)
      requires Valid() && mode == Some(CM.CheckoutMode.Branch)
      modifies this, headFile
      ensures Valid()
      ensures r.Ok? <==> name in branches.logs && name !in branches.unreadable && !headFile.unwritable
      ensures r.Ok? ==> head.branch.name == name && head.branch.commits == branches.logs[name] && fresh(head.branch)
      ensures r.Ok? ==> headFile.stored == Some(StoredHead.Attached(name))
      ensures r.Err? ==> head == old(head) && headFile.stored == old(headFile.stored)
    {
      r := CheckoutBranch(name);
    }

    /**
     * `Root::checkout_branch`: loads the branch, writes the new head to
     * `.gust/HEAD.json`, and only then replaces the head in memory. If the
     * branch cannot be loaded or the head cannot be written, the head stays.
     */
    method CheckoutBranch(name: string) returns (r: Result<()>)
      requires Valid()
      modifies this, headFile
      ensures Valid()
      ensures r.Ok? <==> name in branches.logs && name !in branches.unreadable && !headFile.unwritable
      ensures r.Ok? ==> head.branch.name == name && head.branch.commits == branches.logs[name] && fresh(head.branch)
      ensures r.Ok? ==> headFile.stored == Some(StoredHead.Attached(name)) && headFile.stored == Some(IntoStored(head))
      ensures r.Err? ==> head == old(head) && headFile.stored == old(headFile.stored)
    {
      var loaded := Branches.Load(branches, path, name);
      if loaded.Err? {
        return Err(loaded.error);
      }
      var newHead := Head.Attached(loaded.value);
      r := SaveTo(newHead, headFile);
      if r.Err? {
        return r;
      }
      head := newHead;
    }
  }

  /**
   * Opening a project (`Root::new`): the root is found from the current
   * directory, the head attaches the branch named in `.gust/HEAD`, the
   * staging area is loaded and pruned, and the ignore list is read
   * (`Root::read_ignored`). `headText` is the content of `.gust/HEAD`, or
   * the error reading it. `stagingFile` is the content of
   * `.gust/staging_area.json`: `None` when the file does not exist (an empty
   * staging area), or the error opening or parsing it.
   */
  method Open(cwd: Path, fs: WorkTree, headText: Result<string>, branches: BranchDir,
              stagingFile: Option<Result<map<Path, ChangeType>>>, stagingSaveFails: bool,
              ignoreFile: Option<Result<seq<string>>>, joinFails: string -> bool, headFile: HeadFile)
    returns (r: Result<Root>)
    requires forall k :: 0 <= k <= |cwd| ==> IsDir(fs, cwd[..k])
    ensures r.Ok? ==> fresh(r.value) && r.value.Valid() && r.value.cwd == cwd && r.value.fs == fs
    ensures r.Ok? ==> StartsWith(cwd, r.value.path) && Exists(fs, GustDir(r.value.path))
    ensures r.Ok? ==> forall k :: |r.value.path| < k <= |cwd| ==> !Exists(fs, GustDir(cwd[..k]))
    ensures r.Ok? ==> headText.Ok? && r.value.head.branch.name == ParseHead(headText.value)
    ensures r.Ok? ==> r.value.branches == branches && r.value.headFile == headFile
    ensures r.Ok? ==> r.value.staging.saveFails == stagingSaveFails
    ensures r.Ok? && stagingFile.None? ==> r.value.staging.files == map[] && r.value.staging.saved == map[]
    ensures r.Ok? && stagingFile.Some? ==>
      && stagingFile.value.Ok?
      && r.value.staging.files == Prune(stagingFile.value.value, r.value.path, fs)
      && r.value.staging.saved == stagingFile.value.value
    ensures r.Ok? && ignoreFile.None? ==> r.value.ignored == []
    ensures r.Ok? && ignoreFile.Some? ==> ignoreFile.value.Ok?
    ensures r.Ok? && ignoreFile.Some? && ignoreFile.value.Ok? ==>
      r.value.ignored == ParseIgnoreLines(r.value.path, ignoreFile.value.value, joinFails)
    ensures headText.Err? ==> r.Err?
    ensures r.Ok? <==>
      && (exists k :: 0 <= k <= |cwd| && Exists(fs, GustDir(cwd[..k])))
      && headText.Ok? && ParseHead(headText.value) !in branches.unreadable
      && (stagingFile.None? || stagingFile.value.Ok?)
      && (ignoreFile.None? || ignoreFile.value.Ok?)
    ensures r.Ok? ==>
      r.value.head.branch.commits == (if ParseHead(headText.value) in branches.logs then branches.logs[ParseHead(headText.value)] else [])
  {
    var found := FindProjectRoot(cwd, fs);
    if found.Err? {
      return Err(found.error);
    }
    var root := found.value;
    assert root == cwd[..|root|];
    assert Exists(fs, GustDir(cwd[..|root|]));
    if headText.Err? {
      return Err(headText.error);
    }
    var name := ParseHead(headText.value);
    var branch := Create(branches, root, name);
    if branch.Err? {
      return Err(branch.error);
    }
    if stagingFile.Some? && stagingFile.value.Err? {
      return Err(stagingFile.value.error);
    }
    var stored := if stagingFile.Some? then stagingFile.value.value else map[];
    var staging := new StagingArea.FromStored(stored, root, fs, stagingSaveFails);
    assert stagingFile.None? ==> staging.files == map[];
    var ignored := ReadIgnored(root, ignoreFile, joinFails);
    if ignored.Err? {
      return Err(ignored.error);
    }
    var project := new Root(root, cwd, fs, Head.Attached(branch.value), staging, ignored.value, branches, headFile);
    return Ok(project);
  }
}
